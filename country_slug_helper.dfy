/** CountrySlugHelper (src/lib/helpers/CountrySlugHelper.ts): country names to URL
    slugs and incoming slugs to their canonical form.

    Unicode canonical decomposition (`normalize('NFD')`) is not modelled: it is a
    parameter `nfd`, and the idempotence results assume only that it leaves ASCII text
    alone. The regular expressions are written out character by character; `\s` and
    `trim` use the ECMAScript white-space and line-terminator set. */
module CountrySlugHelper {
  import opened Wrappers
  import opened Ascii

  predicate IsAsciiAlnum(c: char) {
    'a' <= c <= 'z' || 'A' <= c <= 'Z' || '0' <= c <= '9'
  }

  /** The characters `\s` matches and `trim` removes. */
  predicate IsJsSpace(c: char) {
    var n := c as int;
    (0x09 <= n <= 0x0D) || n == 0x20 || n == 0xA0 || n == 0x1680 || (0x2000 <= n <= 0x200A) ||
    n == 0x2028 || n == 0x2029 || n == 0x202F || n == 0x205F || n == 0x3000 || n == 0xFEFF
  }

  predicate IsDash(c: char) { c == '-' }

  /** U+0300 to U+036F, the combining diacritical marks. */
  predicate IsCombiningMark(c: char) {
    0x300 <= c as int <= 0x36F
  }

  /** A character a slug may hold: `[a-z0-9-]`. */
  predicate IsSlugChar(c: char) {
    'a' <= c <= 'z' || '0' <= c <= '9' || c == '-'
  }

  predicate NoDoubleDash(s: string) {
    forall i :: 0 <= i < |s| - 1 ==> !(s[i] == '-' && s[i + 1] == '-')
  }

  /** The canonical slug format: only `[a-z0-9-]`, never two dashes in a row. */
  predicate IsSlug(s: string) {
    (forall i :: 0 <= i < |s| ==> IsSlugChar(s[i])) && NoDoubleDash(s)
  }

  predicate IsAsciiText(s: string) {
    forall i :: 0 <= i < |s| ==> s[i] as int < 128
  }

  /** A decomposition that leaves ASCII text as it is, as NFD does. */
  ghost predicate FixesAscii(nfd: string -> string) {
    forall s {:trigger nfd(s)} :: IsAsciiText(s) ==> nfd(s) == s
  }

  /** `.replace(/[\u0300-\u036f]/g, '')`. */
  function StripMarks(s: string): (r: string)
    ensures |r| <= |s|
    ensures forall i :: 0 <= i < |r| ==> !IsCombiningMark(r[i])
    ensures (forall i :: 0 <= i < |s| ==> !IsCombiningMark(s[i])) ==> r == s
    ensures |s| == 1 ==> r == (if IsCombiningMark(s[0]) then [] else s)
  {
    if s == [] then []
    else StripMarks(s[..|s| - 1]) + (if IsCombiningMark(s[|s| - 1]) then [] else [s[|s| - 1]])
  }

  /** removeDiacritics: decompose, then drop the combining marks. */
  function RemoveDiacritics(s: string, nfd: string -> string): string {
    StripMarks(nfd(s))
  }

  /** `.replace(/[^a-zA-Z0-9\s-]/g, ' ')`. Strings here are sequences of Unicode
      scalar values, so "same length" counts characters; JavaScript counts UTF-16 code
      units, and the two differ only for characters outside the Basic Multilingual
      Plane (one character here, a surrogate pair there, each unit becoming a space). */
  function BlankDisallowed(s: string): (r: string)
    ensures |r| == |s|
    ensures forall i :: 0 <= i < |r| ==> IsAsciiAlnum(r[i]) || IsJsSpace(r[i]) || r[i] == '-'
    ensures forall i :: 0 <= i < |s| && (IsAsciiAlnum(s[i]) || IsJsSpace(s[i]) || s[i] == '-') ==> r[i] == s[i]
    ensures forall i :: 0 <= i < |s| && !(IsAsciiAlnum(s[i]) || IsJsSpace(s[i]) || s[i] == '-') ==> r[i] == ' '
  {
    seq(|s|, i requires 0 <= i < |s| => if IsAsciiAlnum(s[i]) || IsJsSpace(s[i]) || s[i] == '-' then s[i] else ' ')
  }

  /** `.replace(/[^a-zA-Z0-9-]/g, '')`. */
  function DeleteDisallowed(s: string): (r: string)
    ensures |r| <= |s|
    ensures forall i :: 0 <= i < |r| ==> IsAsciiAlnum(r[i]) || r[i] == '-'
    ensures (forall i :: 0 <= i < |s| ==> IsAsciiAlnum(s[i]) || s[i] == '-') ==> r == s
    ensures (forall i :: 0 <= i < |s| ==> !(IsAsciiAlnum(s[i]) || s[i] == '-')) ==> r == []
    ensures |s| == 1 ==> r == (if IsAsciiAlnum(s[0]) || s[0] == '-' then s else [])
  {
    if s == [] then []
    else
      var c := s[|s| - 1];
      DeleteDisallowed(s[..|s| - 1]) + (if IsAsciiAlnum(c) || c == '-' then [c] else [])
  }

  lemma StripMarksSnoc(s: string, c: char)
    ensures StripMarks(s + [c]) == StripMarks(s) + (if IsCombiningMark(c) then [] else [c])
  {
    assert (s + [c])[..|s|] == s;
  }

  /** Removing the marks keeps every other character in order: it works character by
      character, so it distributes over concatenation. */
  lemma {:induction false} StripMarksAppend(a: string, b: string)
    ensures StripMarks(a + b) == StripMarks(a) + StripMarks(b)
  {
    if b == [] {
      assert a + b == a;
    } else {
      var n := |b| - 1;
      var p, c := b[..n], b[n];
      assert b == p + [c] && a + b == (a + p) + [c];
      StripMarksSnoc(a + p, c);
      StripMarksSnoc(p, c);
      StripMarksAppend(a, p);
    }
  }

  lemma DeleteDisallowedSnoc(s: string, c: char)
    ensures DeleteDisallowed(s + [c]) == DeleteDisallowed(s) + (if IsAsciiAlnum(c) || c == '-' then [c] else [])
  {
    assert (s + [c])[..|s|] == s;
  }

  /** Deleting the disallowed characters keeps the allowed ones in order: it
      distributes over concatenation. */
  lemma {:induction false} DeleteDisallowedAppend(a: string, b: string)
    ensures DeleteDisallowed(a + b) == DeleteDisallowed(a) + DeleteDisallowed(b)
  {
    if b == [] {
      assert a + b == a;
    } else {
      var n := |b| - 1;
      var p, c := b[..n], b[n];
      assert b == p + [c] && a + b == (a + p) + [c];
      DeleteDisallowedSnoc(a + p, c);
      DeleteDisallowedSnoc(p, c);
      DeleteDisallowedAppend(a, p);
    }
  }

  /** The number of leading white-space characters. */
  function LeadingSpaces(s: string): (k: nat)
    ensures k <= |s|
    ensures forall i :: 0 <= i < k ==> IsJsSpace(s[i])
    ensures k < |s| ==> !IsJsSpace(s[k])
  {
    if s == [] || !IsJsSpace(s[0]) then 0 else 1 + LeadingSpaces(s[1..])
  }

  /** The length left once trailing white space is removed. */
  function TrailingStart(s: string): (k: nat)
    ensures k <= |s|
    ensures forall i :: k <= i < |s| ==> IsJsSpace(s[i])
    ensures k > 0 ==> !IsJsSpace(s[k - 1])
  {
    if s == [] || !IsJsSpace(s[|s| - 1]) then |s| else TrailingStart(s[..|s| - 1])
  }

  /** `.trim()`. */
  function Trim(s: string): (r: string)
    ensures r == [] || (!IsJsSpace(r[0]) && !IsJsSpace(r[|r| - 1]))
    ensures LeadingSpaces(s) + |r| <= |s| && r == s[LeadingSpaces(s)..LeadingSpaces(s) + |r|]
    ensures forall i :: 0 <= i < LeadingSpaces(s) ==> IsJsSpace(s[i])
    ensures forall i :: LeadingSpaces(s) + |r| <= i < |s| ==> IsJsSpace(s[i])
    ensures forall i :: 0 <= i < |r| ==> r[i] in s
  {
    var t := s[LeadingSpaces(s)..];
    t[..TrailingStart(t)]
  }

  /** `.replace(/P+/g, rep)`: every maximal run of characters satisfying `P` becomes
      one `rep`. */
  function CollapseRuns(s: string, P: char -> bool, rep: char): (r: string)
    ensures |r| <= |s|
    ensures r == [] <==> s == []
  {
    if s == [] then []
    else
      var p := s[..|s| - 1];
      var r := CollapseRuns(p, P, rep);
      var c := s[|s| - 1];
      if !P(c) then r + [c]
      else if p != [] && P(p[|p| - 1]) then r
      else r + [rep]
  }

  /** The steps of toCountrySlug after the empty-input check. */
  function SlugSteps(name: string, nfd: string -> string): string {
    var cleaned := Trim(BlankDisallowed(RemoveDiacritics(name, nfd)));
    Lower(CollapseRuns(CollapseRuns(cleaned, IsJsSpace, '-'), IsDash, '-'))
  }

  /** The steps of normalizeCountrySlug after the empty-input check. */
  function NormalizeSteps(slug: string, nfd: string -> string): string {
    Lower(Trim(CollapseRuns(DeleteDisallowed(RemoveDiacritics(slug, nfd)), IsDash, '-')))
  }

  /** toCountrySlug: '' for a missing or empty name; otherwise always a canonical slug. */
  function ToCountrySlug(name: Option<string>, nfd: string -> string): (slug: string)
    ensures name.None? || name.value == "" ==> slug == ""
    ensures IsSlug(slug)
  {
    if name.None? || name.value == "" then ""
    else
      SlugStepsAreSlug(name.value, nfd);
      SlugSteps(name.value, nfd)
  }

  /** normalizeCountrySlug: '' for a missing or empty slug; otherwise always a
      canonical slug, with every white-space character deleted. */
  function NormalizeCountrySlug(slug: Option<string>, nfd: string -> string): (r: string)
    ensures slug.None? || slug.value == "" ==> r == ""
    ensures IsSlug(r)
  {
    if slug.None? || slug.value == "" then ""
    else
      NormalizeStepsAreSlug(slug.value, nfd);
      NormalizeSteps(slug.value, nfd)
  }

  // ----- Run collapsing -----

  /** Every character of the result is `rep` or a character of the input outside `P`. */
  lemma {:induction false} CollapseRunsChars(s: string, P: char -> bool, rep: char)
    ensures forall i :: 0 <= i < |CollapseRuns(s, P, rep)| ==>
              CollapseRuns(s, P, rep)[i] == rep || (CollapseRuns(s, P, rep)[i] in s && !P(CollapseRuns(s, P, rep)[i]))
  {
    if s != [] {
      var p := s[..|s| - 1];
      CollapseRunsChars(p, P, rep);
      forall c | c in p ensures c in s {
      }
    }
  }

  /** Collapsing dashes keeps the string non-empty, ends it in a dash exactly when the
      input ends in one, and leaves no two dashes in a row. */
  lemma {:induction false} CollapseDashesLast(s: string)
    ensures |CollapseRuns(s, IsDash, '-')| > 0 <==> |s| > 0
    ensures |s| > 0 ==> (CollapseRuns(s, IsDash, '-')[|CollapseRuns(s, IsDash, '-')| - 1] == '-' <==> s[|s| - 1] == '-')
    ensures NoDoubleDash(CollapseRuns(s, IsDash, '-'))
  {
    if s != [] {
      CollapseDashesLast(s[..|s| - 1]);
    }
  }

  /** Collapsing removes nothing from a string without the run character. */
  lemma {:induction false} CollapseRunsNone(s: string, P: char -> bool, rep: char)
    requires forall i :: 0 <= i < |s| ==> !P(s[i])
    ensures CollapseRuns(s, P, rep) == s
  {
    if s != [] {
      CollapseRunsNone(s[..|s| - 1], P, rep);
    }
  }

  /** Appending characters outside the run class appends them unchanged. */
  lemma {:induction false} CollapseRunsPlain(p: string, q: string, P: char -> bool, rep: char)
    requires forall i :: 0 <= i < |q| ==> !P(q[i])
    ensures CollapseRuns(p + q, P, rep) == CollapseRuns(p, P, rep) + q
  {
    if q == [] {
      assert p + q == p;
    } else {
      var n := |q| - 1;
      var pq := p + q;
      assert pq[..|pq| - 1] == p + q[..n] && pq[|pq| - 1] == q[n];
      CollapseRunsPlain(p, q[..n], P, rep);
      assert q == q[..n] + [q[n]];
    }
  }

  /** A non-empty run appended after a character outside the class becomes one `rep`. */
  lemma {:induction false} CollapseRunsRun(p: string, run: string, P: char -> bool, rep: char)
    requires p != [] && !P(p[|p| - 1])
    requires run != [] && forall i :: 0 <= i < |run| ==> P(run[i])
    ensures CollapseRuns(p + run, P, rep) == CollapseRuns(p, P, rep) + [rep]
  {
    var n := |run| - 1;
    var pr := p + run;
    assert pr[..|pr| - 1] == p + run[..n] && pr[|pr| - 1] == run[n];
    if n > 0 {
      CollapseRunsRun(p, run[..n], P, rep);
    }
  }

  /** Collapsing dashes changes nothing where no two dashes are adjacent. */
  lemma {:induction false} CollapseDashesNone(s: string)
    requires NoDoubleDash(s)
    ensures CollapseRuns(s, IsDash, '-') == s
  {
    if s != [] {
      var p := s[..|s| - 1];
      assert NoDoubleDash(p);
      CollapseDashesNone(p);
    }
  }

  /** Lower-casing keeps dashes where they are and creates none. */
  lemma LowerKeepsDashes(s: string)
    ensures NoDoubleDash(s) ==> NoDoubleDash(Lower(s))
  {
    assert forall i :: 0 <= i < |s| ==> (Lower(s)[i] == '-' <==> s[i] == '-');
  }

  // ----- The canonical format -----

  /** Lower-casing letters, digits and single dashes gives a canonical slug. */
  lemma LowerIsSlug(t: string)
    requires forall i :: 0 <= i < |t| ==> IsAsciiAlnum(t[i]) || t[i] == '-'
    requires NoDoubleDash(t)
    ensures IsSlug(Lower(t))
  {
    LowerKeepsDashes(t);
  }

  lemma SlugStepsAreSlug(name: string, nfd: string -> string)
    ensures IsSlug(SlugSteps(name, nfd))
  {
    var cleaned := Trim(BlankDisallowed(RemoveDiacritics(name, nfd)));
    var spaced := CollapseRuns(cleaned, IsJsSpace, '-');
    var dashed := CollapseRuns(spaced, IsDash, '-');
    CollapseRunsChars(cleaned, IsJsSpace, '-');
    assert forall i :: 0 <= i < |spaced| ==> IsAsciiAlnum(spaced[i]) || spaced[i] == '-';
    CollapseRunsChars(spaced, IsDash, '-');
    assert forall i :: 0 <= i < |dashed| ==> IsAsciiAlnum(dashed[i]) || dashed[i] == '-';
    CollapseDashesLast(spaced);
    LowerIsSlug(dashed);
  }

  lemma NormalizeStepsAreSlug(slug: string, nfd: string -> string)
    ensures IsSlug(NormalizeSteps(slug, nfd))
  {
    var deleted := DeleteDisallowed(RemoveDiacritics(slug, nfd));
    var dashed := CollapseRuns(deleted, IsDash, '-');
    var trimmed := Trim(dashed);
    CollapseRunsChars(deleted, IsDash, '-');
    CollapseDashesLast(deleted);
    assert forall i :: 0 <= i < |dashed| ==> IsAsciiAlnum(dashed[i]) || dashed[i] == '-';
    TrimNone(dashed);
    LowerIsSlug(dashed);
  }

  /** Trimming changes nothing where neither end is white space. */
  lemma TrimNone(s: string)
    requires s == [] || (!IsJsSpace(s[0]) && !IsJsSpace(s[|s| - 1]))
    ensures Trim(s) == s
  {
    assert LeadingSpaces(s) == 0;
    assert s[0..] == s;
    assert TrailingStart(s) == |s|;
  }

  /** A canonical slug is ASCII text without marks, white space or other characters
      either function removes. */
  lemma SlugChars(s: string)
    requires IsSlug(s)
    ensures IsAsciiText(s) && IsLowerCase(s)
    ensures forall i :: 0 <= i < |s| ==> !IsCombiningMark(s[i]) && !IsJsSpace(s[i]) && (IsAsciiAlnum(s[i]) || s[i] == '-')
  {
  }

  /** Every step of either function leaves a canonical slug as it is. */
  lemma StepsFixSlug(s: string, nfd: string -> string)
    requires FixesAscii(nfd) && IsSlug(s)
    ensures SlugSteps(s, nfd) == s
    ensures NormalizeSteps(s, nfd) == s
  {
    SlugChars(s);
    assert nfd(s) == s;
    assert RemoveDiacritics(s, nfd) == s;
    assert BlankDisallowed(s) == s;
    assert DeleteDisallowed(s) == s;
    TrimNone(s);
    CollapseRunsNone(s, IsJsSpace, '-');
    CollapseDashesNone(s);
    LowerOfLowerCase(s);
  }

  /** toCountrySlug is idempotent. */
  lemma ToCountrySlugIdempotent(name: Option<string>, nfd: string -> string)
    requires FixesAscii(nfd)
    ensures ToCountrySlug(Some(ToCountrySlug(name, nfd)), nfd) == ToCountrySlug(name, nfd)
  {
    StepsFixSlug(ToCountrySlug(name, nfd), nfd);
  }

  /** Every slug toCountrySlug makes is already in the canonical routing format. */
  lemma SlugIsNormalized(name: Option<string>, nfd: string -> string)
    requires FixesAscii(nfd)
    ensures NormalizeCountrySlug(Some(ToCountrySlug(name, nfd)), nfd) == ToCountrySlug(name, nfd)
  {
    StepsFixSlug(ToCountrySlug(name, nfd), nfd);
  }

  // ----- Words and white space -----

  predicate IsWord(w: string) {
    w != [] && forall i :: 0 <= i < |w| ==> IsAsciiAlnum(w[i])
  }

  predicate IsAsciiSpaceRun(run: string) {
    run != [] && forall i :: 0 <= i < |run| ==> IsJsSpace(run[i]) && run[i] as int < 128
  }

  /** Two words separated by white space, as ASCII text without combining marks. */
  lemma TwoWordsChars(w1: string, run: string, w2: string)
    requires IsWord(w1) && IsAsciiSpaceRun(run) && IsWord(w2)
    ensures var s := w1 + run + w2;
      IsAsciiText(s) &&
      (forall i :: 0 <= i < |s| ==> !IsCombiningMark(s[i]) && (IsAsciiAlnum(s[i]) || IsJsSpace(s[i]))) &&
      !IsJsSpace(s[0]) && !IsJsSpace(s[|s| - 1])
  {
    var s := w1 + run + w2;
    forall i | 0 <= i < |s|
      ensures s[i] as int < 128 && (IsAsciiAlnum(s[i]) || IsJsSpace(s[i]))
    {
      if i < |w1| {
        assert s[i] == w1[i];
      } else if i < |w1| + |run| {
        assert s[i] == run[i - |w1|];
      } else {
        assert s[i] == w2[i - |w1| - |run|];
      }
    }
    assert s[0] == w1[0] && s[|s| - 1] == w2[|w2| - 1];
  }

  /** Two words joined by one dash never hold two dashes in a row. */
  lemma DashJoinedWords(w1: string, w2: string)
    requires IsWord(w1) && IsWord(w2)
    ensures NoDoubleDash(w1 + "-" + w2)
  {
    var t := w1 + "-" + w2;
    forall i | 0 <= i < |t| - 1 ensures !(t[i] == '-' && t[i + 1] == '-') {
      if i < |w1| {
        assert t[i] == w1[i];
      } else {
        assert t[i + 1] == w2[i - |w1|];
      }
    }
  }

  /** Deleting the disallowed characters deletes white space. */
  lemma SpaceRunDeleted(run: string)
    requires IsAsciiSpaceRun(run)
    ensures DeleteDisallowed(run) == []
  {
    forall i | 0 <= i < |run| ensures !(IsAsciiAlnum(run[i]) || run[i] == '-') {
      var n := run[i] as int;
      assert (0x09 <= n <= 0x0D) || n == 0x20;
    }
  }

  /** On ASCII text without marks, removeDiacritics changes nothing; if the text is
      also made of letters, digits and white space and neither end is white space,
      the blanking and trimming steps of toCountrySlug change nothing either. */
  lemma AsciiCleanSteps(s: string, nfd: string -> string)
    requires FixesAscii(nfd) && IsAsciiText(s)
    requires forall i :: 0 <= i < |s| ==> !IsCombiningMark(s[i]) && (IsAsciiAlnum(s[i]) || IsJsSpace(s[i]))
    requires s != [] && !IsJsSpace(s[0]) && !IsJsSpace(s[|s| - 1])
    ensures RemoveDiacritics(s, nfd) == s
    ensures Trim(BlankDisallowed(RemoveDiacritics(s, nfd))) == s
  {
    assert nfd(s) == s;
    assert BlankDisallowed(s) == s;
    TrimNone(s);
  }

  /** toCountrySlug on a non-empty name, given what each of its steps yields. */
  lemma SlugChain(name: string, nfd: string -> string, spaced: string)
    requires name != ""
    requires CollapseRuns(Trim(BlankDisallowed(RemoveDiacritics(name, nfd))), IsJsSpace, '-') == spaced
    requires CollapseRuns(spaced, IsDash, '-') == spaced
    ensures ToCountrySlug(Some(name), nfd) == Lower(spaced)
  {
  }

  /** normalizeCountrySlug on a non-empty slug, given what each of its steps yields. */
  lemma NormalizeChain(slug: string, nfd: string -> string, kept: string)
    requires slug != ""
    requires DeleteDisallowed(RemoveDiacritics(slug, nfd)) == kept
    requires Trim(CollapseRuns(kept, IsDash, '-')) == kept
    ensures NormalizeCountrySlug(Some(slug), nfd) == Lower(kept)
  {
  }

  /** The blanking and trimming steps leave two words and the white space between
      them as they are. */
  lemma CleanTwoWords(w1: string, run: string, w2: string, nfd: string -> string)
    requires FixesAscii(nfd)
    requires IsWord(w1) && IsAsciiSpaceRun(run) && IsWord(w2)
    ensures RemoveDiacritics(w1 + run + w2, nfd) == w1 + run + w2
    ensures Trim(BlankDisallowed(RemoveDiacritics(w1 + run + w2, nfd))) == w1 + run + w2
  {
    TwoWordsChars(w1, run, w2);
    AsciiCleanSteps(w1 + run + w2, nfd);
  }

  /** Collapsing white space, then dashes, turns the run between two words into one
      dash. */
  lemma CollapseTwoWords(w1: string, run: string, w2: string)
    requires IsWord(w1) && IsAsciiSpaceRun(run) && IsWord(w2)
    ensures CollapseRuns(w1 + run + w2, IsJsSpace, '-') == w1 + "-" + w2
    ensures CollapseRuns(w1 + "-" + w2, IsDash, '-') == w1 + "-" + w2
  {
    CollapseRunsNone(w1, IsJsSpace, '-');
    CollapseRunsRun(w1, run, IsJsSpace, '-');
    CollapseRunsPlain(w1 + run, w2, IsJsSpace, '-');
    DashJoinedWords(w1, w2);
    CollapseDashesNone(w1 + "-" + w2);
  }

  /** A word has no character to delete. */
  lemma WordKept(w: string)
    requires IsWord(w)
    ensures DeleteDisallowed(w) == w
  {
  }

  /** Deleting the disallowed characters of two words and the white space between
      them leaves the two words joined. */
  lemma DeleteTwoWords(w1: string, run: string, w2: string)
    requires IsWord(w1) && IsAsciiSpaceRun(run) && IsWord(w2)
    ensures DeleteDisallowed(w1 + run + w2) == w1 + w2
  {
    DeleteDisallowedAppend(w1 + run, w2);
    DeleteDisallowedAppend(w1, run);
    SpaceRunDeleted(run);
    WordKept(w1);
    WordKept(w2);
    assert w1 + [] == w1;
  }

  /** Collapsing dashes and trimming leave two joined words as they are. */
  lemma JoinedWordsKept(w1: string, w2: string)
    requires IsWord(w1) && IsWord(w2)
    ensures Trim(CollapseRuns(w1 + w2, IsDash, '-')) == w1 + w2
  {
    var joined := w1 + w2;
    assert forall i :: 0 <= i < |joined| ==> IsAsciiAlnum(joined[i]);
    CollapseRunsNone(joined, IsDash, '-');
    assert joined[0] == w1[0] && joined[|joined| - 1] == w2[|w2| - 1];
    TrimNone(joined);
  }

  /** toCountrySlug turns the white space between two words into one dash and
      lower-cases the words: "New  York" becomes "new-york". */
  lemma SlugOfTwoWords(w1: string, run: string, w2: string, nfd: string -> string)
    requires FixesAscii(nfd)
    requires IsWord(w1) && IsAsciiSpaceRun(run) && IsWord(w2)
    ensures ToCountrySlug(Some(w1 + run + w2), nfd) == Lower(w1) + "-" + Lower(w2)
  {
    CleanTwoWords(w1, run, w2, nfd);
    CollapseTwoWords(w1, run, w2);
    SlugChain(w1 + run + w2, nfd, w1 + "-" + w2);
    LowerAppend(w1 + "-", w2);
    LowerAppend(w1, "-");
    assert Lower("-") == "-";
  }

  /** normalizeCountrySlug deletes the white space between two words instead of
      turning it into a dash: "New  York" becomes "newyork". */
  lemma NormalizeOfTwoWords(w1: string, run: string, w2: string, nfd: string -> string)
    requires FixesAscii(nfd)
    requires IsWord(w1) && IsAsciiSpaceRun(run) && IsWord(w2)
    ensures NormalizeCountrySlug(Some(w1 + run + w2), nfd) == Lower(w1 + w2)
  {
    CleanTwoWords(w1, run, w2, nfd);
    DeleteTwoWords(w1, run, w2);
    JoinedWordsKept(w1, w2);
    NormalizeChain(w1 + run + w2, nfd, w1 + w2);
  }
}
