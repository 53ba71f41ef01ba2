/** The layout the analysis prompt asks the model to answer in, and what
    the parser makes of a reply that keeps to it. The layout lemmas are
    stated for any four labels that match only themselves and any
    whitespace around the fields, so that only one proof has to look
    inside the anchor strings. */
module SectionLayout {
  import opened Text
  import opened Sections

  const Anchors := [SummaryAnchor, MethodologyAnchor, AnalysisAnchor, HypothesisAnchor]

  const Rules := [SummaryRule, MethodologyRule, AnalysisRule, HypothesisRule]

  function Fields(s: Sections): seq<string> {
    [s.summary, s.methodology, s.analysis, s.hypothesis]
  }

  /** The body of one section: the whitespace between its label and its
      field, the field, and the whitespace before the next label. */
  datatype Part = Part(lead: string, field: string, trail: string)

  /** Section `i` of the layout: its label, then its part. */
  function Entry(labels: seq<string>, parts: seq<Part>, i: nat): string
    requires i < |labels| && i < |parts|
  {
    labels[i] + parts[i].lead + parts[i].field + parts[i].trail
  }

  /** The four sections in order. */
  function Layout(labels: seq<string>, parts: seq<Part>): string
    requires |labels| == 4 && |parts| == 4
  {
    Entry(labels, parts, 0) + Entry(labels, parts, 1) + Entry(labels, parts, 2) + Entry(labels, parts, 3)
  }

  /** The reply the analysis prompt asks for: each header alone on its
      line, its text on the next line, and a blank line between sections. */
  function PromptParts(s: Sections): seq<Part> {
    [Part("\n", s.summary, "\n\n"), Part("\n", s.methodology, "\n\n"),
     Part("\n", s.analysis, "\n\n"), Part("\n", s.hypothesis, "")]
  }

  function Render(s: Sections): string {
    Layout(Anchors, PromptParts(s))
  }

  /** Whitespace separates every label from its field, and every field
      from the next label; the last field may end the text. */
  ghost predicate Spaced(parts: seq<Part>) {
    && |parts| == 4
    && forall i :: 0 <= i < 4 ==>
         && |parts[i].lead| > 0 && AllSpace(parts[i].lead) && AllSpace(parts[i].trail)
         && (i < 3 ==> |parts[i].trail| > 0)
  }

  /** None of `labels` occurs in `s`, in any case. */
  ghost predicate FreeOf(s: string, labels: seq<string>) {
    forall q: nat, k :: 0 <= k < |labels| ==> !MatchAt(s, q, labels[k])
  }

  /** No anchor occurs in `s`, in any case. */
  ghost predicate AnchorFree(s: string) {
    FreeOf(s, Anchors)
  }

  /** Fields the layout can carry without confusing the parser. */
  ghost predicate Renderable(s: Sections) {
    && Stripped(s.summary) && Stripped(s.methodology) && Stripped(s.analysis) && Stripped(s.hypothesis)
    && AnchorFree(s.summary) && AnchorFree(s.methodology) && AnchorFree(s.analysis) && AnchorFree(s.hypothesis)
  }

  /** The same, for the fields of a list of parts. */
  ghost predicate Carried(parts: seq<Part>) {
    forall i :: 0 <= i < |parts| ==> Stripped(parts[i].field) && AnchorFree(parts[i].field)
  }

  /** Anchors are non-empty and hold only upper-case letters and colons. */
  predicate IsLabel(pat: string) {
    |pat| > 0 && forall k :: 0 <= k < |pat| ==> 'A' <= pat[k] <= 'Z' || pat[k] == ':'
  }

  /** Four labels, none of which occurs inside another or elsewhere in itself. */
  ghost predicate LabelSet(labels: seq<string>) {
    && |labels| == 4
    && (forall i :: 0 <= i < 4 ==> IsLabel(labels[i]))
    && (forall l, a, q: nat :: 0 <= l < 4 && 0 <= a < 4 ==>
          (MatchAt(labels[l], q, labels[a]) <==> (q == 0 && l == a)))
  }

  /** The four anchors form such a set. */
  lemma AnchorsAreLabels()
    ensures LabelSet(Anchors)
  {
    forall l, a, q: nat | 0 <= l < 4 && 0 <= a < 4
      ensures MatchAt(Anchors[l], q, Anchors[a]) <==> (q == 0 && l == a)
    {
      AnchorInAnchor(l, a, q);
    }
  }

  lemma AnchorInAnchor(l: nat, a: nat, q: nat)
    requires l < |Anchors| && a < |Anchors|
    ensures MatchAt(Anchors[l], q, Anchors[a]) <==> (q == 0 && l == a)
  {
    if l == a && q == 0 {
      MatchExact(Anchors[l], 0, Anchors[a]);
    } else {
      LeadingLetter(Anchors[l], q, Anchors[a]);
      AnchorRow(l, a, q);
    }
  }

  /** Anchor `a` can only start where anchor `l` holds its first letter. */
  lemma AnchorRow(l: nat, a: nat, q: nat)
    requires l < |Anchors| && a < |Anchors| && !(q == 0 && l == a)
    ensures q + |Anchors[a]| <= |Anchors[l]| ==> Fold(Anchors[l][q]) != Fold(Anchors[a][0])
  {
    if l == 0 {
      assert Anchors[l] == "SUMMARY:";
    } else if l == 1 {
      assert Anchors[l] == "METHODOLOGY:";
    } else if l == 2 {
      assert Anchors[l] == "ANALYSIS:";
    } else {
      assert Anchors[l] == "HYPOTHESIS:";
    }
  }

  /** A match agrees with the pattern on its first character. */
  lemma LeadingLetter(text: string, i: nat, pat: string)
    requires |pat| > 0
    ensures MatchAt(text, i, pat) ==> i + |pat| <= |text| && Fold(text[i]) == Fold(pat[0])
  {
    MatchAtChars(text, i, pat);
    if MatchAt(text, i, pat) {
      assert Fold(text[i + 0]) == Fold(pat[0]);
    }
  }

  /** Rule `i` searches for anchor `i` and stops at the anchors after it. */
  lemma RuleOf(i: nat)
    requires i < 4
    ensures Rules[i].anchor == Anchors[i] && Rules[i].terminators == Anchors[i + 1..]
  {
  }

  /** `y` sits in `text` at offset `o`. */
  predicate Placed(text: string, o: nat, y: string) {
    o + |y| <= |text| && forall k :: 0 <= k < |y| ==> text[o + k] == y[k]
  }

  lemma PlacedSlice(text: string, o: nat, y: string, end: nat)
    requires Placed(text, o, y) && end == o + |y|
    ensures text[o..end] == y
  {
  }

  lemma MatchInside(text: string, o: nat, y: string, q: nat, pat: string)
    requires Placed(text, o, y) && o <= q && q + |pat| <= o + |y|
    ensures MatchAt(text, q, pat) <==> MatchAt(y, q - o, pat)
  {
    MatchAtChars(text, q, pat);
    MatchAtChars(y, q - o, pat);
  }

  /** A label never matches across a whitespace character. */
  lemma SpaceBlocks(text: string, q: nat, j: nat, pat: string)
    requires IsLabel(pat) && q <= j < q + |pat| && j < |text| && IsSpace(text[j])
    ensures !MatchAt(text, q, pat)
  {
    MatchAtChars(text, q, pat);
    assert Fold(text[j]) != Fold(pat[j - q]);
  }

  /** No label starts inside a run of whitespace. */
  lemma SpaceAt(text: string, o: nat, w: string, q: nat, pat: string)
    requires Placed(text, o, w) && AllSpace(w) && o <= q < o + |w| && IsLabel(pat)
    ensures !MatchAt(text, q, pat)
  {
    assert text[o + (q - o)] == w[q - o];
    SpaceBlocks(text, q, q, pat);
  }

  /** Inside a label that is followed by whitespace, a label of the set can
      only match at that label's own start. */
  lemma LabelPiece(text: string, labels: seq<string>, o: nat, l: nat, a: nat, q: nat)
    requires LabelSet(labels) && l < 4 && a < 4
    requires Placed(text, o, labels[l]) && o + |labels[l]| < |text| && IsSpace(text[o + |labels[l]|])
    requires o <= q <= o + |labels[l]|
    ensures MatchAt(text, q, labels[a]) <==> (q == o && l == a)
  {
    if q + |labels[a]| <= o + |labels[l]| {
      MatchInside(text, o, labels[l], q, labels[a]);
    } else {
      SpaceBlocks(text, q, o + |labels[l]|, labels[a]);
    }
  }

  /** Inside a label-free field that is followed by whitespace or the end
      of the text, no label of the set matches. */
  lemma FieldPiece(text: string, labels: seq<string>, o: nat, y: string, a: nat, q: nat)
    requires LabelSet(labels) && a < 4
    requires Placed(text, o, y) && FreeOf(y, labels)
    requires o + |y| == |text| || IsSpace(text[o + |y|])
    requires o <= q <= o + |y|
    ensures !MatchAt(text, q, labels[a])
  {
    if q + |labels[a]| <= o + |y| {
      MatchInside(text, o, y, q, labels[a]);
    } else if o + |y| < |text| {
      SpaceBlocks(text, q, o + |y|, labels[a]);
    }
  }

  /** Where section `i` starts; `Offset(.., 4)` is the length of the layout. */
  function Offset(labels: seq<string>, parts: seq<Part>, i: nat): nat
    requires |labels| == 4 && |parts| == 4 && i <= 4
  {
    if i == 0 then 0 else Offset(labels, parts, i - 1) + |Entry(labels, parts, i - 1)|
  }

  /** The four pieces of a concatenation, each at its offset. */
  lemma PlacedInFour(e0: string, e1: string, e2: string, e3: string)
    ensures Placed(e0 + e1 + e2 + e3, 0, e0)
    ensures Placed(e0 + e1 + e2 + e3, |e0|, e1)
    ensures Placed(e0 + e1 + e2 + e3, |e0| + |e1|, e2)
    ensures Placed(e0 + e1 + e2 + e3, |e0| + |e1| + |e2|, e3)
  {
    var t := e0 + e1 + e2 + e3;
    assert forall k :: 0 <= k < |e0| ==> t[k] == e0[k];
    assert forall k :: 0 <= k < |e1| ==> t[|e0| + k] == e1[k];
    assert forall k :: 0 <= k < |e2| ==> t[|e0| + |e1| + k] == e2[k];
    assert forall k :: 0 <= k < |e3| ==> t[|e0| + |e1| + |e2| + k] == e3[k];
  }

  /** The pieces of `a + b + c + d` placed at `o`, and its tail after `a`. */
  lemma PlacedParts(text: string, o: nat, a: string, b: string, c: string, d: string)
    requires Placed(text, o, a + b + c + d)
    ensures Placed(text, o, a)
    ensures Placed(text, o + |a|, b)
    ensures Placed(text, o + |a| + |b|, c)
    ensures Placed(text, o + |a| + |b| + |c|, d)
    ensures Placed(text, o + |a|, b + c + d)
  {
    var e := a + b + c + d;
    assert forall k :: 0 <= k < |a| ==> e[k] == a[k];
    assert forall k :: 0 <= k < |b| ==> e[|a| + k] == b[k];
    assert forall k :: 0 <= k < |c| ==> e[|a| + |b| + k] == c[k];
    assert forall k :: 0 <= k < |d| ==> e[|a| + |b| + |c| + k] == d[k];
    assert forall k :: 0 <= k < |b| + |c| + |d| ==> e[|a| + k] == (b + c + d)[k];
  }

  /** Sections follow each other without overlap. */
  lemma {:induction false} OffsetsIncrease(labels: seq<string>, parts: seq<Part>, i: nat, j: nat)
    requires |labels| == 4 && |parts| == 4 && i < j <= 4
    ensures Offset(labels, parts, i) + |Entry(labels, parts, i)| <= Offset(labels, parts, j)
    decreases j
  {
    if i + 1 < j {
      OffsetsIncrease(labels, parts, i, j - 1);
    }
  }

  /** All four fields are free of the labels. */
  ghost predicate PartsFree(labels: seq<string>, parts: seq<Part>) {
    forall i :: 0 <= i < |parts| ==> FreeOf(parts[i].field, labels)
  }

  /** `text` holds the four sections of the layout, back to back. */
  ghost predicate LaidOut(text: string, labels: seq<string>, parts: seq<Part>) {
    && |labels| == 4 && |parts| == 4
    && |text| == Offset(labels, parts, 4)
    && forall i :: 0 <= i < 4 ==> Placed(text, Offset(labels, parts, i), Entry(labels, parts, i))
  }

  /** The layout holds each section at its offset. */
  lemma LayoutLaidOut(labels: seq<string>, parts: seq<Part>)
    requires |labels| == 4 && |parts| == 4
    ensures LaidOut(Layout(labels, parts), labels, parts)
  {
    var e0, e1, e2, e3 := Entry(labels, parts, 0), Entry(labels, parts, 1),
                          Entry(labels, parts, 2), Entry(labels, parts, 3);
    var text := Layout(labels, parts);
    assert text == e0 + e1 + e2 + e3;
    PlacedInFour(e0, e1, e2, e3);
    OffsetValues(labels, parts);
    var o1, o2, o3 := Offset(labels, parts, 1), Offset(labels, parts, 2), Offset(labels, parts, 3);
    assert o1 == |e0| && o2 == |e0| + |e1| && o3 == |e0| + |e1| + |e2|;
    assert Placed(text, o1, e1) && Placed(text, o2, e2) && Placed(text, o3, e3);
    forall i | 0 <= i < 4
      ensures Placed(text, Offset(labels, parts, i), Entry(labels, parts, i))
    {
      if i == 0 {
      } else if i == 1 {
      } else if i == 2 {
      } else {
        assert i == 3;
      }
    }
  }

  /** The offsets are the running sums of the section lengths. */
  lemma OffsetValues(labels: seq<string>, parts: seq<Part>)
    requires |labels| == 4 && |parts| == 4
    ensures Offset(labels, parts, 1) == |Entry(labels, parts, 0)|
    ensures Offset(labels, parts, 2) == |Entry(labels, parts, 0)| + |Entry(labels, parts, 1)|
    ensures Offset(labels, parts, 3) ==
      |Entry(labels, parts, 0)| + |Entry(labels, parts, 1)| + |Entry(labels, parts, 2)|
    ensures Offset(labels, parts, 4) ==
      |Entry(labels, parts, 0)| + |Entry(labels, parts, 1)| + |Entry(labels, parts, 2)| + |Entry(labels, parts, 3)|
  {
  }

  /** Within one section, placed at `o`, only its own label matches, and
      only at its start. */
  lemma EntryOccurrences(text: string, labels: seq<string>, o: nat, l: nat, p: Part, a: nat, q: nat)
    requires LabelSet(labels) && l < 4 && a < 4 && FreeOf(p.field, labels)
    requires |p.lead| > 0 && AllSpace(p.lead) && AllSpace(p.trail)
    requires Placed(text, o, labels[l] + p.lead + p.field + p.trail)
    requires |p.trail| > 0 || o + |labels[l] + p.lead + p.field + p.trail| == |text|
    requires o <= q && (q < o + |labels[l] + p.lead + p.field + p.trail| || q == |text|)
    ensures MatchAt(text, q, labels[a]) <==> (q == o && a == l)
  {
    PlacedParts(text, o, labels[l], p.lead, p.field, p.trail);
    var lo := o + |labels[l]|;
    var fo := lo + |p.lead|;
    var fe := fo + |p.field|;
    assert IsLabel(labels[a]);
    if q <= lo {
      assert text[lo + 0] == p.lead[0];
      LabelPiece(text, labels, o, l, a, q);
    } else if q < fo {
      SpaceAt(text, lo, p.lead, q, labels[a]);
    } else if q <= fe {
      if |p.trail| > 0 {
        assert text[fe + 0] == p.trail[0];
      }
      FieldPiece(text, labels, fo, p.field, a, q);
    } else if q < fe + |p.trail| {
      SpaceAt(text, fe, p.trail, q, labels[a]);
    }
  }

  /** Each label occurs once in the layout, at the start of its section. */
  lemma LayoutOccurrences(text: string, labels: seq<string>, parts: seq<Part>, a: nat, q: nat)
    requires LabelSet(labels) && LaidOut(text, labels, parts) && PartsFree(labels, parts) && Spaced(parts)
    requires a < 4
    ensures MatchAt(text, q, labels[a]) <==> q == Offset(labels, parts, a)
  {
    if q <= |text| {
      var i: nat := if q < Offset(labels, parts, 1) then 0
        else if q < Offset(labels, parts, 2) then 1
        else if q < Offset(labels, parts, 3) then 2
        else 3;
      assert Placed(text, Offset(labels, parts, i), Entry(labels, parts, i));
      assert FreeOf(parts[i].field, labels);
      EntryOccurrences(text, labels, Offset(labels, parts, i), i, parts[i], a, q);
      if a < i {
        OffsetsIncrease(labels, parts, a, i);
      } else if i < a {
        OffsetsIncrease(labels, parts, i, a);
      }
    } else if a < 3 {
      OffsetsIncrease(labels, parts, a, 4);
    }
  }

  /** The labels after `i` occur exactly at the starts of the sections after `i`. */
  lemma LayoutTerminators(text: string, labels: seq<string>, parts: seq<Part>, i: nat, q: nat)
    requires LabelSet(labels) && LaidOut(text, labels, parts) && PartsFree(labels, parts) && Spaced(parts)
    requires i < 4
    ensures MatchesAny(text, q, labels[i + 1..]) <==> exists a :: i < a < 4 && q == Offset(labels, parts, a)
  {
    var terms := labels[i + 1..];
    MatchesAnyIff(text, q, terms);
    if MatchesAny(text, q, terms) {
      var k :| 0 <= k < |terms| && MatchAt(text, q, terms[k]);
      assert terms[k] == labels[i + 1 + k];
      LayoutOccurrences(text, labels, parts, i + 1 + k, q);
    }
    if exists a :: i < a < 4 && q == Offset(labels, parts, a) {
      var a :| i < a < 4 && q == Offset(labels, parts, a);
      assert terms[a - i - 1] == labels[a];
      LayoutOccurrences(text, labels, parts, a, q);
    }
  }

  /** The stretch the rule for `anchor` captures from: the anchor's first
      occurrence at `p`, and the first terminator after it at `stop` (or
      the end of the text). */
  ghost predicate Span(text: string, anchor: string, terms: seq<string>, p: nat, stop: nat) {
    && FirstAt(text, p, anchor)
    && p + |anchor| <= stop <= |text|
    && NoneBetween(text, terms, p + |anchor|, stop)
    && (stop == |text| || MatchesAny(text, stop, terms))
  }

  /** None of `terms` occurs at a position in `[from, to)`. */
  ghost predicate NoneBetween(text: string, terms: seq<string>, from: nat, to: nat) {
    forall q: nat :: from <= q < to ==> !MatchesAny(text, q, terms)
  }

  /** Section `i`'s span runs from its label to the start of the next
      section, or to the end of the layout for the last one. */
  lemma LayoutStop(text: string, labels: seq<string>, parts: seq<Part>, i: nat)
    requires LabelSet(labels) && LaidOut(text, labels, parts) && PartsFree(labels, parts) && Spaced(parts)
    requires i < 4
    ensures Span(text, labels[i], labels[i + 1..], Offset(labels, parts, i), Offset(labels, parts, i + 1))
  {
    LayoutFirst(text, labels, parts, i);
    LayoutRun(text, labels, parts, i);
    LayoutEnd(text, labels, parts, i);
  }

  /** Label `i` first occurs at the start of section `i`. */
  lemma LayoutFirst(text: string, labels: seq<string>, parts: seq<Part>, i: nat)
    requires LabelSet(labels) && LaidOut(text, labels, parts) && PartsFree(labels, parts) && Spaced(parts)
    requires i < 4
    ensures FirstAt(text, Offset(labels, parts, i), labels[i])
  {
    forall q: nat ensures MatchAt(text, q, labels[i]) <==> q == Offset(labels, parts, i) {
      LayoutOccurrences(text, labels, parts, i, q);
    }
  }

  /** No later label occurs inside section `i`. */
  lemma LayoutRun(text: string, labels: seq<string>, parts: seq<Part>, i: nat)
    requires LabelSet(labels) && LaidOut(text, labels, parts) && PartsFree(labels, parts) && Spaced(parts)
    requires i < 4
    ensures NoneBetween(text, labels[i + 1..], Offset(labels, parts, i) + |labels[i]|, Offset(labels, parts, i + 1))
  {
    var terms := labels[i + 1..];
    forall a | i + 1 < a < 4 ensures Offset(labels, parts, i + 1) < Offset(labels, parts, a) {
      OffsetsIncrease(labels, parts, i + 1, a);
    }
    forall q: nat | Offset(labels, parts, i) + |labels[i]| <= q < Offset(labels, parts, i + 1)
      ensures !MatchesAny(text, q, terms)
    {
      LayoutTerminators(text, labels, parts, i, q);
    }
  }

  /** Section `i` ends where a later label starts, or at the end of the text. */
  lemma LayoutEnd(text: string, labels: seq<string>, parts: seq<Part>, i: nat)
    requires LabelSet(labels) && LaidOut(text, labels, parts) && PartsFree(labels, parts) && Spaced(parts)
    requires i < 4
    ensures Offset(labels, parts, i) + |labels[i]| <= Offset(labels, parts, i + 1) <= |text|
    ensures Offset(labels, parts, i + 1) == |text| || MatchesAny(text, Offset(labels, parts, i + 1), labels[i + 1..])
  {
    if i < 3 {
      OffsetsIncrease(labels, parts, i + 1, 4);
      LayoutTerminators(text, labels, parts, i, Offset(labels, parts, i + 1));
    }
  }

  /** The text section `i`'s span covers. */
  lemma LayoutSpan(text: string, labels: seq<string>, parts: seq<Part>, i: nat)
    requires LaidOut(text, labels, parts) && i < 4
    ensures Offset(labels, parts, i) + |labels[i]| <= Offset(labels, parts, i + 1) <= |text|
    ensures text[Offset(labels, parts, i) + |labels[i]|..Offset(labels, parts, i + 1)] ==
      parts[i].lead + parts[i].field + parts[i].trail
  {
    var o := Offset(labels, parts, i);
    if i < 3 {
      OffsetsIncrease(labels, parts, i + 1, 4);
    }
    assert Placed(text, o, Entry(labels, parts, i));
    PlacedParts(text, o, labels[i], parts[i].lead, parts[i].field, parts[i].trail);
    PlacedSlice(text, o + |labels[i]|, parts[i].lead + parts[i].field + parts[i].trail, Offset(labels, parts, i + 1));
  }

  lemma SpanField(text: string, rule: Rule, p: nat, stop: nat, lead: string, y: string, trail: string)
    requires Span(text, rule.anchor, rule.terminators, p, stop)
    requires text[p + |rule.anchor|..stop] == lead + y + trail
    requires AllSpace(lead) && Stripped(y) && AllSpace(trail)
    ensures Section(text, rule) == y
  {
    CaptureSpan(text, rule, p, stop);
    StripAround(lead, y, trail);
  }

  /** Each field of a laid-out reply parses back to itself. */
  lemma LaidOutField(text: string, labels: seq<string>, parts: seq<Part>, rule: Rule, i: nat)
    requires LabelSet(labels) && LaidOut(text, labels, parts) && PartsFree(labels, parts) && Spaced(parts)
    requires i < 4 && rule.anchor == labels[i] && rule.terminators == labels[i + 1..]
    requires Stripped(parts[i].field)
    ensures Section(text, rule) == parts[i].field
  {
    LayoutStop(text, labels, parts, i);
    LayoutSpan(text, labels, parts, i);
    SpanField(text, rule, Offset(labels, parts, i), Offset(labels, parts, i + 1),
              parts[i].lead, parts[i].field, parts[i].trail);
  }

  /** Field `i` of any well-spaced layout of the four anchors parses back. */
  lemma LayoutField(parts: seq<Part>, i: nat)
    requires Spaced(parts) && Carried(parts) && i < 4
    ensures Section(Layout(Anchors, parts), Rules[i]) == parts[i].field
  {
    AnchorsAreLabels();
    RuleOf(i);
    LayoutLaidOut(Anchors, parts);
    assert PartsFree(Anchors, parts);
    LaidOutField(Layout(Anchors, parts), Anchors, parts, Rules[i], i);
  }

  /** The round trip for any whitespace around the fields: four headers in
      order, each followed by whitespace and a stripped field that mentions
      no anchor, with whitespace before the next header, parse back to
      exactly those fields. */
  lemma ParseLayout(parts: seq<Part>)
    requires Spaced(parts) && Carried(parts)
    ensures Parse(Layout(Anchors, parts)) ==
      Sections(parts[0].field, parts[1].field, parts[2].field, parts[3].field)
  {
    LayoutField(parts, 0);
    LayoutField(parts, 1);
    LayoutField(parts, 2);
    LayoutField(parts, 3);
  }

  /** The prompt's layout is well spaced. */
  lemma PromptSpaced(s: Sections)
    ensures Spaced(PromptParts(s))
  {
    assert AllSpace("\n") && AllSpace("\n\n") && AllSpace("");
  }

  /** The round trip for the prompt's layout: a reply in it, whose fields
      are stripped and mention no anchor, parses back to exactly its fields. */
  lemma ParseRender(s: Sections)
    requires Renderable(s)
    ensures Parse(Render(s)) == s
  {
    PromptSpaced(s);
    ParseLayout(PromptParts(s));
  }
}
