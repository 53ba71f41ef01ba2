/** The structured-section parser (`parse_markdown_sections`): four
    case-insensitive regex searches over the raw completion text, each
    filling one field or leaving its placeholder. */
module Sections {
  import opened Wrappers
  import opened Text

  const SummaryAnchor := "SUMMARY:"
  const MethodologyAnchor := "METHODOLOGY:"
  const AnalysisAnchor := "ANALYSIS:"
  const HypothesisAnchor := "HYPOTHESIS:"

  /** One section regex: the anchor it searches for, the anchors its
      lookahead stops at (besides the end of the text), and the value the
      field keeps when the anchor does not occur. */
  datatype Rule = Rule(anchor: string, terminators: seq<string>, placeholder: string)

  /** `SUMMARY:\s*(.*?)\s*(?=METHODOLOGY:|ANALYSIS:|HYPOTHESIS:|$)` */
  const SummaryRule := Rule(SummaryAnchor, [MethodologyAnchor, AnalysisAnchor, HypothesisAnchor],
                            "Summary not generated.")
  /** `METHODOLOGY:\s*(.*?)\s*(?=ANALYSIS:|HYPOTHESIS:|$)` */
  const MethodologyRule := Rule(MethodologyAnchor, [AnalysisAnchor, HypothesisAnchor],
                                "Methodology not generated.")
  /** `ANALYSIS:\s*(.*?)\s*(?=HYPOTHESIS:|$)` */
  const AnalysisRule := Rule(AnalysisAnchor, [HypothesisAnchor], "Analysis not generated.")
  /** `HYPOTHESIS:\s*(.*)`: no terminator, the group runs to the end of the text. */
  const HypothesisRule := Rule(HypothesisAnchor, [], "Hypothesis not generated.")

  /** The parser's result: always exactly these four fields. */
  datatype Sections = Sections(summary: string, methodology: string, analysis: string, hypothesis: string)

  const Placeholders := Sections(SummaryRule.placeholder, MethodologyRule.placeholder,
                                 AnalysisRule.placeholder, HypothesisRule.placeholder)

  /** `pat` occurs at `p` and nowhere before it. */
  predicate FirstAt(text: string, p: nat, pat: string) {
    MatchAt(text, p, pat) && forall q: nat :: q < p ==> !MatchAt(text, q, pat)
  }

  /** Every terminator is a non-empty label starting with an upper-case letter. */
  predicate LabelledTerminators(rule: Rule) {
    forall k :: 0 <= k < |rule.terminators| ==>
      |rule.terminators[k]| > 0 && 'A' <= rule.terminators[k][0] <= 'Z'
  }

  /** `group(1).strip()` of the rule's match, or None when the search fails. */
  function Capture(text: string, rule: Rule): Option<string> {
    match FirstMatch(text, rule.anchor)
    case None => None
    case Some(p) =>
      var start := p + |rule.anchor|;
      Some(Strip(text[start..NextMatch(text, rule.terminators, start)]))
  }

  /** One field of the result: the capture, or the rule's placeholder. */
  function Section(text: string, rule: Rule): (r: string)
    ensures (forall q: nat :: !MatchAt(text, q, rule.anchor)) ==> r == rule.placeholder
    ensures (exists q: nat :: MatchAt(text, q, rule.anchor)) ==> Stripped(r) && |r| <= |text|
  {
    Capture(text, rule).GetOr(rule.placeholder)
  }

  /** `parse_markdown_sections`: total, and never fails on any text. */
  function Parse(text: string): (r: Sections)
    ensures (forall q: nat :: !MatchAt(text, q, SummaryAnchor)) ==> r.summary == SummaryRule.placeholder
    ensures (forall q: nat :: !MatchAt(text, q, MethodologyAnchor)) ==> r.methodology == MethodologyRule.placeholder
    ensures (forall q: nat :: !MatchAt(text, q, AnalysisAnchor)) ==> r.analysis == AnalysisRule.placeholder
    ensures (forall q: nat :: !MatchAt(text, q, HypothesisAnchor)) ==> r.hypothesis == HypothesisRule.placeholder
  {
    Sections(Section(text, SummaryRule), Section(text, MethodologyRule),
             Section(text, AnalysisRule), Section(text, HypothesisRule))
  }

  /** The span rule: a present field is the stripped text between the end of
      the first occurrence of its anchor and the first later occurrence of
      one of its own terminators, or the end of the text. */
  lemma CaptureSpan(text: string, rule: Rule, p: nat, stop: nat)
    requires FirstAt(text, p, rule.anchor)
    requires p + |rule.anchor| <= stop <= |text|
    requires forall q: nat :: p + |rule.anchor| <= q < stop ==> !MatchesAny(text, q, rule.terminators)
    requires stop == |text| || MatchesAny(text, stop, rule.terminators)
    ensures Capture(text, rule) == Some(Strip(text[p + |rule.anchor|..stop]))
  {
    CaptureAt(text, rule, p);
    NextMatchAt(text, rule.terminators, p + |rule.anchor|, stop);
  }

  /** An anchor followed only by whitespace before a terminator (or the end
      of the text) yields the empty string, not the placeholder. */
  lemma EmptyCapture(text: string, rule: Rule, p: nat, k: nat)
    requires FirstAt(text, p, rule.anchor)
    requires p + |rule.anchor| <= k <= |text|
    requires SpacesBetween(text, p + |rule.anchor|, k)
    requires k == |text| || MatchesAny(text, k, rule.terminators)
    ensures Capture(text, rule) == Some("")
  {
    var start := p + |rule.anchor|;
    var stop := NextMatch(text, rule.terminators, start);
    assert stop <= k;
    var x := text[start..stop];
    assert AllSpace(x);
    StripAround(x, [], []);
    assert x + [] + [] == x;
  }

  /** Where `\s*(?=T1|...|Tn|$)` can succeed: from `e`, whitespace reaches
      a terminator or the end of the text. (`$` also matches just before a
      final newline; as that newline is whitespace, this changes nothing.) */
  ghost predicate CanStop(text: string, terms: seq<string>, e: nat)
    requires e <= |text|
  {
    exists k: nat :: e <= k <= |text| && SpacesBetween(text, e, k) &&
      (k == |text| || MatchesAny(text, k, terms))
  }

  /** The match `re.search` makes for `ANCHOR:\s*(.*?)\s*(?=TERMS|$)` with
      DOTALL: the anchor at its leftmost occurrence `p`, the greedy `\s*`
      up to `w`, and the lazy group `text[w..e]` ending at the first `e`
      from which the pattern's tail can succeed. */
  ghost predicate RegexGroup(text: string, rule: Rule, p: nat, w: nat, e: nat) {
    && FirstAt(text, p, rule.anchor)
    && p + |rule.anchor| <= w <= e <= |text|
    && SpacesBetween(text, p + |rule.anchor|, w)
    && (w == |text| || !IsSpace(text[w]))
    && CanStop(text, rule.terminators, e)
    && (forall e': nat :: w <= e' < e ==> !CanStop(text, rule.terminators, e'))
  }

  lemma {:induction false} MatchedLabelIsNotSpace(text: string, i: nat, pats: seq<string>)
    requires forall k :: 0 <= k < |pats| ==> |pats[k]| > 0 && 'A' <= pats[k][0] <= 'Z'
    requires MatchesAny(text, i, pats)
    ensures i < |text| && !IsSpace(text[i])
    decreases |pats|
  {
    if MatchAt(text, i, pats[0]) {
      MatchAtChars(text, i, pats[0]);
      assert Fold(text[i]) == Fold(pats[0][0]);
    } else {
      MatchedLabelIsNotSpace(text, i, pats[1..]);
    }
  }

  /** Where the rule's search stops once its anchor is found at `p`: the
      first terminator after the anchor, or the end of the text. */
  function Stop(text: string, rule: Rule, p: nat): (stop: nat)
    requires p + |rule.anchor| <= |text|
    ensures p + |rule.anchor| <= stop <= |text|
  {
    NextMatch(text, rule.terminators, p + |rule.anchor|)
  }

  /** The text `Strip` is applied to once the anchor is found at `p`. */
  function Region(text: string, rule: Rule, p: nat): string
    requires p + |rule.anchor| <= |text|
  {
    text[p + |rule.anchor|..Stop(text, rule, p)]
  }

  /** Where `Strip` starts the capture, as a position of `text`. */
  function GroupStart(text: string, rule: Rule, p: nat): nat
    requires p + |rule.anchor| <= |text|
  {
    p + |rule.anchor| + SkipSpaces(Region(text, rule, p), 0)
  }

  /** Where `Strip` ends the capture, as a position of `text`. */
  function GroupEnd(text: string, rule: Rule, p: nat): nat
    requires p + |rule.anchor| <= |text|
  {
    var x := Region(text, rule, p);
    p + |rule.anchor| + TrimEnd(x, SkipSpaces(x, 0), |x|)
  }

  /** Strip's boundaries inside the region are the boundaries of the
      regex's greedy `\s*` and of its lazy group. */
  lemma StripBoundsAreGroupBounds(text: string, rule: Rule, p: nat)
    requires LabelledTerminators(rule)
    requires FirstAt(text, p, rule.anchor)
    ensures p + |rule.anchor| <= |text|
    ensures RegexGroup(text, rule, p, GroupStart(text, rule, p), GroupEnd(text, rule, p))
  {
    GroupLead(text, rule, p);
    GroupStop(text, rule, p);
    GroupShortest(text, rule, p);
  }

  /** The greedy `\s*` after the anchor ends at the group's start. */
  lemma GroupLead(text: string, rule: Rule, p: nat)
    requires LabelledTerminators(rule)
    requires p + |rule.anchor| <= |text|
    ensures p + |rule.anchor| <= GroupStart(text, rule, p) <= Stop(text, rule, p)
    ensures SpacesBetween(text, p + |rule.anchor|, GroupStart(text, rule, p))
    ensures GroupStart(text, rule, p) == |text| || !IsSpace(text[GroupStart(text, rule, p)])
  {
    var start, stop := p + |rule.anchor|, Stop(text, rule, p);
    var x := Region(text, rule, p);
    var lo := SkipSpaces(x, 0);
    SliceSpaces(text, start, stop, 0, lo);
    if start + lo == stop && stop < |text| {
      MatchedLabelIsNotSpace(text, stop, rule.terminators);
    } else if lo < |x| {
      assert text[start + lo] == x[lo];
    }
  }

  /** From the group's end, whitespace reaches the stop. */
  lemma GroupStop(text: string, rule: Rule, p: nat)
    requires p + |rule.anchor| <= |text|
    ensures GroupStart(text, rule, p) <= GroupEnd(text, rule, p) <= Stop(text, rule, p)
    ensures SpacesBetween(text, GroupEnd(text, rule, p), Stop(text, rule, p))
    ensures GroupEnd(text, rule, p) <= |text| && CanStop(text, rule.terminators, GroupEnd(text, rule, p))
  {
    var start, stop := p + |rule.anchor|, Stop(text, rule, p);
    var x := Region(text, rule, p);
    var hi := TrimEnd(x, SkipSpaces(x, 0), |x|);
    SliceSpaces(text, start, stop, hi, |x|);
    StopFrom(text, rule.terminators, start + hi, stop);
  }

  /** No earlier end lets the lookahead succeed. */
  lemma GroupShortest(text: string, rule: Rule, p: nat)
    requires p + |rule.anchor| <= |text|
    ensures GroupStart(text, rule, p) <= GroupEnd(text, rule, p) <= |text|
    ensures forall e': nat :: GroupStart(text, rule, p) <= e' < GroupEnd(text, rule, p) ==>
      !CanStop(text, rule.terminators, e')
  {
    var start, stop := p + |rule.anchor|, Stop(text, rule, p);
    var x := Region(text, rule, p);
    var lo := SkipSpaces(x, 0);
    var hi := TrimEnd(x, lo, |x|);
    if lo < hi {
      assert text[start + hi - 1] == x[hi - 1];
      NoStopInsideGroup(text, rule.terminators, start, stop, start + lo, start + hi);
    }
  }

  /** The capture is the text between the group bounds. */
  lemma CaptureIsGroupText(text: string, rule: Rule, p: nat)
    requires FirstAt(text, p, rule.anchor)
    ensures p + |rule.anchor| <= |text|
    ensures GroupStart(text, rule, p) <= GroupEnd(text, rule, p) <= |text|
    ensures Capture(text, rule) == Some(text[GroupStart(text, rule, p)..GroupEnd(text, rule, p)])
  {
    CaptureAt(text, rule, p);
    StripRegion(text, rule, p);
  }

  /** The capture at the anchor's first occurrence `p`. */
  lemma CaptureAt(text: string, rule: Rule, p: nat)
    requires FirstAt(text, p, rule.anchor)
    ensures p + |rule.anchor| <= |text|
    ensures Capture(text, rule) == Some(Strip(Region(text, rule, p)))
  {
    assert FirstMatch(text, rule.anchor) == Some(p);
  }

  /** Stripping the region leaves the text between the group bounds. */
  lemma StripRegion(text: string, rule: Rule, p: nat)
    requires p + |rule.anchor| <= |text|
    ensures GroupStart(text, rule, p) <= GroupEnd(text, rule, p) <= |text|
    ensures Strip(Region(text, rule, p)) == text[GroupStart(text, rule, p)..GroupEnd(text, rule, p)]
  {
    var x := Region(text, rule, p);
    var lo := SkipSpaces(x, 0);
    SliceOfSlice(text, p + |rule.anchor|, Stop(text, rule, p), lo, TrimEnd(x, lo, |x|));
  }

  lemma SliceOfSlice(text: string, start: nat, stop: nat, lo: nat, hi: nat)
    requires start <= stop <= |text| && lo <= hi <= stop - start
    ensures text[start..stop][lo..hi] == text[start + lo..start + hi]
  {
    var x, y := text[start..stop][lo..hi], text[start + lo..start + hi];
    assert |x| == |y|;
    forall k | 0 <= k < |x| ensures x[k] == y[k] {
      assert x[k] == text[start + lo + k];
    }
  }

  lemma StopFrom(text: string, terms: seq<string>, e: nat, k: nat)
    requires e <= k <= |text| && SpacesBetween(text, e, k)
    requires k == |text| || MatchesAny(text, k, terms)
    ensures CanStop(text, terms, e)
  {
  }

  /** Whitespace in a slice is whitespace in the text. */
  lemma SliceSpaces(text: string, start: nat, stop: nat, i: nat, j: nat)
    requires start <= stop <= |text| && i <= j <= stop - start
    ensures SpacesBetween(text[start..stop], i, j) <==> SpacesBetween(text, start + i, start + j)
  {
    assert forall k :: i <= k < j ==> text[start..stop][k] == text[start + k];
  }

  /** No end before the last non-space character lets the lookahead succeed. */
  lemma NoStopInsideGroup(text: string, terms: seq<string>, start: nat, stop: nat, w: nat, e: nat)
    requires start <= w < e <= stop <= |text|
    requires forall q: nat :: start <= q < stop ==> !MatchesAny(text, q, terms)
    requires !IsSpace(text[e - 1])
    ensures forall e': nat :: w <= e' < e ==> !CanStop(text, terms, e')
  {
    forall e': nat | w <= e' < e ensures !CanStop(text, terms, e') {
      forall k: nat | e' <= k <= |text| && SpacesBetween(text, e', k)
        ensures k < |text| && !MatchesAny(text, k, terms)
      {
        assert k < e;
      }
    }
  }

  /** The capture is exactly the group the regex engine produces, and
      `strip()` leaves that group unchanged; the search fails exactly when
      the anchor occurs nowhere. */
  lemma CaptureIsShortestRegexGroup(text: string, rule: Rule)
    requires LabelledTerminators(rule)
    ensures Capture(text, rule).None? <==> forall q: nat :: !MatchAt(text, q, rule.anchor)
    ensures Capture(text, rule).Some? ==>
      exists p: nat, w: nat, e: nat :: RegexGroup(text, rule, p, w, e) && Capture(text, rule) == Some(text[w..e])
  {
    match FirstMatch(text, rule.anchor)
    case None =>
    case Some(p) =>
      CaptureIsGroupText(text, rule, p);
      StripBoundsAreGroupBounds(text, rule, p);
  }

  /** What one field of the parse is, in terms of the regex alone: the
      placeholder when the anchor occurs nowhere, and otherwise the text
      the regex captures, as `strip()` leaves it. For HYPOTHESIS, whose
      group `(.*)` is greedy, `text[w..e]` is that group without its
      trailing whitespace. */
  ghost predicate FieldMatches(text: string, rule: Rule, field: string) {
    || ((forall q: nat :: !MatchAt(text, q, rule.anchor)) && field == rule.placeholder)
    || (exists p: nat, w: nat, e: nat :: RegexGroup(text, rule, p, w, e) && field == text[w..e])
  }

  /** Each of the four fields of the parse is what its regex finds. */
  lemma ParseMatchesRegexes(text: string)
    ensures FieldMatches(text, SummaryRule, Parse(text).summary)
    ensures FieldMatches(text, MethodologyRule, Parse(text).methodology)
    ensures FieldMatches(text, AnalysisRule, Parse(text).analysis)
    ensures FieldMatches(text, HypothesisRule, Parse(text).hypothesis)
  {
    FieldMatchesRegex(text, SummaryRule);
    FieldMatchesRegex(text, MethodologyRule);
    FieldMatchesRegex(text, AnalysisRule);
    FieldMatchesRegex(text, HypothesisRule);
  }

  lemma FieldMatchesRegex(text: string, rule: Rule)
    requires LabelledTerminators(rule)
    ensures FieldMatches(text, rule, Section(text, rule))
  {
    CaptureIsShortestRegexGroup(text, rule);
  }

  /** HYPOTHESIS has no terminator: it captures through the end of the text. */
  lemma HypothesisRunsToEnd(text: string, p: nat)
    requires FirstAt(text, p, HypothesisAnchor)
    ensures Parse(text).hypothesis == Strip(text[p + |HypothesisAnchor|..])
  {
    HypothesisSection(text, p);
  }

  lemma HypothesisSection(text: string, p: nat)
    requires FirstAt(text, p, HypothesisAnchor)
    ensures Section(text, HypothesisRule) == Strip(text[p + |HypothesisAnchor|..])
  {
    CaptureAt(text, HypothesisRule, p);
    HypothesisRegion(text, p);
  }

  /** With no terminator, the searched region is the rest of the text. */
  lemma HypothesisRegion(text: string, p: nat)
    requires p + |HypothesisAnchor| <= |text|
    ensures Region(text, HypothesisRule, p) == text[p + |HypothesisAnchor|..]
  {
    NextMatchAt(text, [], p + |HypothesisAnchor|, |text|);
  }
}
