/** Character classes, case-insensitive search and whitespace stripping, as
    the section parser's regular expressions and `str.strip()` use them. */
module Text {
  import opened Wrappers

  /** Python's `str.isspace` set. The regex class `\s` (on `str` patterns)
      and the argument-less `str.strip()` both use it. */
  predicate IsSpace(c: char) {
    || c == ' '
    || ('\t' <= c <= '\r')
    || ('\U{001C}' <= c <= '\U{001F}')
    || c == '\U{0085}' || c == '\U{00A0}' || c == '\U{1680}'
    || ('\U{2000}' <= c <= '\U{200A}')
    || c == '\U{2028}' || c == '\U{2029}' || c == '\U{202F}'
    || c == '\U{205F}' || c == '\U{3000}'
  }

  /** Case folding for matching against an ASCII pattern under
      `re.IGNORECASE`: ASCII letters fold to lower case, and so do the four
      non-ASCII letters Python treats as case variants of ASCII ones
      (dotted and dotless I, long s, Kelvin sign). */
  function Fold(c: char): (f: char)
    ensures 'a' <= f <= 'z' ==> !IsSpace(c)
  {
    if 'A' <= c <= 'Z' then (c as int + 32) as char
    else if c == '\U{0130}' || c == '\U{0131}' then 'i'
    else if c == '\U{017F}' then 's'
    else if c == '\U{212A}' then 'k'
    else c
  }

  /** `pat` occurs case-insensitively in `text` starting at position `i`. */
  predicate MatchAt(text: string, i: nat, pat: string) {
    i + |pat| <= |text| && MatchFrom(text, i, pat, 0)
  }

  /** Matching position by position, from index `k` of the pattern on. */
  predicate MatchFrom(text: string, i: nat, pat: string, k: nat)
    requires i + |pat| <= |text| && k <= |pat|
    decreases |pat| - k
  {
    k == |pat| || (Fold(text[i + k]) == Fold(pat[k]) && MatchFrom(text, i, pat, k + 1))
  }

  /** A match is a character-by-character agreement up to case. */
  lemma MatchAtChars(text: string, i: nat, pat: string)
    ensures MatchAt(text, i, pat) <==>
      i + |pat| <= |text| && forall k :: 0 <= k < |pat| ==> Fold(text[i + k]) == Fold(pat[k])
  {
    if i + |pat| <= |text| {
      MatchFromChars(text, i, pat, 0);
    }
  }

  lemma {:induction false} MatchFromChars(text: string, i: nat, pat: string, k: nat)
    requires i + |pat| <= |text| && k <= |pat|
    ensures MatchFrom(text, i, pat, k) <==>
      forall j :: k <= j < |pat| ==> Fold(text[i + j]) == Fold(pat[j])
    decreases |pat| - k
  {
    if k < |pat| {
      MatchFromChars(text, i, pat, k + 1);
    }
  }

  /** A verbatim occurrence is a match. */
  lemma MatchExact(text: string, i: nat, pat: string)
    requires i + |pat| <= |text| && text[i..i + |pat|] == pat
    ensures MatchAt(text, i, pat)
  {
    assert forall k :: 0 <= k < |pat| ==> text[i + k] == pat[k];
    MatchAtChars(text, i, pat);
  }

  /** A pattern with a letter that `text` lacks, in either case, occurs nowhere in it. */
  lemma MissingLetter(text: string, pat: string, j: nat)
    requires j < |pat|
    requires forall i :: 0 <= i < |text| ==> Fold(text[i]) != Fold(pat[j])
    ensures forall q: nat :: !MatchAt(text, q, pat)
  {
    forall q: nat ensures !MatchAt(text, q, pat) {
      MatchAtChars(text, q, pat);
    }
  }

  /** A pattern whose `j`-th letter, in either case, is absent from the
      first `n + j` characters of `text` occurs nowhere before `n`. */
  lemma MissingLetterBefore(text: string, pat: string, j: nat, n: nat)
    requires j < |pat| && n + j <= |text|
    requires forall i :: 0 <= i < n + j ==> Fold(text[i]) != Fold(pat[j])
    ensures forall q: nat :: q < n ==> !MatchAt(text, q, pat)
  {
    forall q: nat | q < n ensures !MatchAt(text, q, pat) {
      MatchAtChars(text, q, pat);
    }
  }

  /** One of `pats` occurs at position `i` (a regex alternation `P1|P2|...`). */
  predicate MatchesAny(text: string, i: nat, pats: seq<string>)
    decreases |pats|
  {
    |pats| > 0 && (MatchAt(text, i, pats[0]) || MatchesAny(text, i, pats[1..]))
  }

  /** `MatchesAny` is a disjunction over the alternatives. */
  lemma {:induction false} MatchesAnyIff(text: string, i: nat, pats: seq<string>)
    ensures MatchesAny(text, i, pats) <==> exists k :: 0 <= k < |pats| && MatchAt(text, i, pats[k])
    decreases |pats|
  {
    if |pats| > 0 {
      MatchesAnyIff(text, i, pats[1..]);
      assert forall k :: 1 <= k < |pats| ==> pats[1..][k - 1] == pats[k];
    }
  }

  /** The first position at or after `from` where one of `pats` occurs, or
      `|text|` when none occurs before the end. */
  function NextMatch(text: string, pats: seq<string>, from: nat): (r: nat)
    requires from <= |text|
    ensures from <= r <= |text|
    ensures r < |text| ==> MatchesAny(text, r, pats)
    ensures forall q :: from <= q < r ==> !MatchesAny(text, q, pats)
    decreases |text| - from
  {
    if from == |text| then |text|
    else if MatchesAny(text, from, pats) then from
    else NextMatch(text, pats, from + 1)
  }

  /** `NextMatch` is the only position with its two properties. */
  lemma NextMatchAt(text: string, pats: seq<string>, from: nat, stop: nat)
    requires from <= stop <= |text|
    requires forall q: nat :: from <= q < stop ==> !MatchesAny(text, q, pats)
    requires stop == |text| || MatchesAny(text, stop, pats)
    ensures NextMatch(text, pats, from) == stop
  {
  }

  /** The leftmost case-insensitive occurrence of `pat`, as `re.search` finds it. */
  function FirstMatch(text: string, pat: string): (r: Option<nat>)
    ensures r.Some? ==> MatchAt(text, r.value, pat)
    ensures r.Some? ==> forall q: nat :: q < r.value ==> !MatchAt(text, q, pat)
    ensures r.None? ==> forall q: nat :: !MatchAt(text, q, pat)
  {
    var r := NextMatch(text, [pat], 0);
    assert forall q :: MatchesAny(text, q, [pat]) <==> MatchAt(text, q, pat) by {
      forall q ensures MatchesAny(text, q, [pat]) <==> MatchAt(text, q, pat) {
        assert [pat][1..] == [];
      }
    }
    if MatchAt(text, r, pat) then Some(r) else None
  }

  /** Every character of `text[i..j]` is whitespace. */
  predicate SpacesBetween(text: string, i: nat, j: nat)
    requires i <= j <= |text|
  {
    forall k :: i <= k < j ==> IsSpace(text[k])
  }

  predicate AllSpace(s: string) {
    forall k :: 0 <= k < |s| ==> IsSpace(s[k])
  }

  /** Neither end of `s` is whitespace: `s.strip()` would leave it alone. */
  predicate Stripped(s: string) {
    s == [] || (!IsSpace(s[0]) && !IsSpace(s[|s| - 1]))
  }

  /** The first non-whitespace position at or after `i`, or `|s|`. */
  function SkipSpaces(s: string, i: nat): (r: nat)
    requires i <= |s|
    ensures i <= r <= |s|
    ensures SpacesBetween(s, i, r)
    ensures r < |s| ==> !IsSpace(s[r])
    decreases |s| - i
  {
    if i == |s| || !IsSpace(s[i]) then i else SkipSpaces(s, i + 1)
  }

  /** The end of `s[lo..hi]` once its trailing whitespace is dropped. */
  function TrimEnd(s: string, lo: nat, hi: nat): (r: nat)
    requires lo <= hi <= |s|
    ensures lo <= r <= hi
    ensures SpacesBetween(s, r, hi)
    ensures r > lo ==> !IsSpace(s[r - 1])
    decreases hi - lo
  {
    if hi == lo || !IsSpace(s[hi - 1]) then hi else TrimEnd(s, lo, hi - 1)
  }

  /** `s.strip()`: `s` without its leading and trailing whitespace. */
  function Strip(s: string): (r: string)
    ensures Stripped(r) && |r| <= |s|
  {
    var lo := SkipSpaces(s, 0);
    s[lo..TrimEnd(s, lo, |s|)]
  }

  /** Stripping removes exactly the whitespace around a stripped core. */
  lemma StripAround(lead: string, core: string, trail: string)
    requires AllSpace(lead) && AllSpace(trail) && Stripped(core)
    ensures Strip(lead + core + trail) == core
  {
    var s := lead + core + trail;
    assert forall k :: 0 <= k < |lead| ==> s[k] == lead[k];
    assert forall k :: 0 <= k < |core| ==> s[|lead| + k] == core[k];
    assert forall k :: 0 <= k < |trail| ==> s[|lead| + |core| + k] == trail[k];
    assert s[|lead|..|lead| + |core|] == core;
  }

  /** `StripAround` for a span of a larger text given by positions. */
  lemma StripSlice(text: string, lo: nat, i: nat, j: nat, hi: nat)
    requires lo <= i <= j <= hi <= |text|
    requires SpacesBetween(text, lo, i) && SpacesBetween(text, j, hi)
    requires i < j ==> !IsSpace(text[i]) && !IsSpace(text[j - 1])
    ensures Strip(text[lo..hi]) == text[i..j]
  {
    assert text[lo..hi] == text[lo..i] + text[i..j] + text[j..hi];
    StripAround(text[lo..i], text[i..j], text[j..hi]);
  }
}
