/** Concrete replies and what the parser makes of them. Each fact about a
    literal text sits in a lemma of its own, so that no proof has to
    evaluate more of a literal than the fact needs. */
module ParserCases {
  import opened Wrappers
  import opened Text
  import opened Sections

  /** A lone ANALYSIS section: the other three keep their placeholders. */
  lemma AnalysisOnly()
    ensures Parse("ANALYSIS: only this") == Placeholders.(analysis := "only this")
  {
    AnalysisOnlyAbsent();
    AnalysisOnlyAnalysis();
  }

  lemma AnalysisOnlyAbsent()
    ensures FirstMatch("ANALYSIS: only this", SummaryAnchor) == None
    ensures FirstMatch("ANALYSIS: only this", MethodologyAnchor) == None
    ensures FirstMatch("ANALYSIS: only this", HypothesisAnchor) == None
  {
    MissingLetter("ANALYSIS: only this", SummaryAnchor, 1);
    MissingLetter("ANALYSIS: only this", MethodologyAnchor, 0);
    MissingLetter("ANALYSIS: only this", HypothesisAnchor, 2);
  }

  lemma AnalysisOnlyAnalysis()
    ensures Section("ANALYSIS: only this", AnalysisRule) == "only this"
  {
    AnalysisOnlyAnchor();
    AnalysisOnlyNoTerminator();
    AnalysisOnlyBody();
    CaptureSpan("ANALYSIS: only this", AnalysisRule, 0, 19);
  }

  lemma AnalysisOnlyAnchor()
    ensures FirstAt("ANALYSIS: only this", 0, AnalysisAnchor)
  {
    MatchExact("ANALYSIS: only this", 0, "ANALYSIS:");
  }

  lemma AnalysisOnlyNoTerminator()
    ensures forall q: nat :: !MatchesAny("ANALYSIS: only this", q, AnalysisRule.terminators)
  {
    MissingLetter("ANALYSIS: only this", "HYPOTHESIS:", 2);
    assert AnalysisRule.terminators == ["HYPOTHESIS:"];
    forall q: nat ensures !MatchesAny("ANALYSIS: only this", q, ["HYPOTHESIS:"]) {
      MatchesAnyIff("ANALYSIS: only this", q, ["HYPOTHESIS:"]);
    }
  }

  lemma AnalysisOnlyBody()
    ensures Strip("ANALYSIS: only this"[9..19]) == "only this"
  {
    StripSlice("ANALYSIS: only this", 9, 10, 19, 19);
    assert "ANALYSIS: only this"[10..19] == "only this";
  }

  /** Anchors out of order: HYPOTHESIS has no terminator, so it swallows
      the SUMMARY section that follows it (everything from position 12,
      "D SUMMARY: A"), while SUMMARY is still found. */
  lemma OutOfOrder()
    ensures Parse("HYPOTHESIS: D SUMMARY: A") ==
      Placeholders.(summary := "A", hypothesis := "HYPOTHESIS: D SUMMARY: A"[12..])
    ensures Parse("HYPOTHESIS: D SUMMARY: A").hypothesis == "D SUMMARY: A"
  {
    OutOfOrderAbsent();
    OutOfOrderSummary();
    OutOfOrderHypothesis();
    OutOfOrderTail();
  }

  /** The hypothesis text of that reply, written out. */
  lemma OutOfOrderTail()
    ensures "HYPOTHESIS: D SUMMARY: A"[12..] == "D SUMMARY: A"
  {
    var tail := "HYPOTHESIS: D SUMMARY: A"[12..];
    assert |tail| == 12;
    assert forall k :: 0 <= k < 12 ==> tail[k] == "D SUMMARY: A"[k];
  }

  lemma OutOfOrderAbsent()
    ensures FirstMatch("HYPOTHESIS: D SUMMARY: A", MethodologyAnchor) == None
    ensures FirstMatch("HYPOTHESIS: D SUMMARY: A", AnalysisAnchor) == None
  {
    MissingLetter("HYPOTHESIS: D SUMMARY: A", MethodologyAnchor, 7);
    MissingLetter("HYPOTHESIS: D SUMMARY: A", AnalysisAnchor, 3);
  }

  lemma OutOfOrderSummary()
    ensures Section("HYPOTHESIS: D SUMMARY: A", SummaryRule) == "A"
  {
    OutOfOrderSummaryAnchor();
    OutOfOrderSummaryTail();
    OutOfOrderSummaryBody();
    CaptureSpan("HYPOTHESIS: D SUMMARY: A", SummaryRule, 14, 24);
  }

  lemma OutOfOrderSummaryAnchor()
    ensures FirstAt("HYPOTHESIS: D SUMMARY: A", 14, SummaryAnchor)
  {
    MatchExact("HYPOTHESIS: D SUMMARY: A", 14, "SUMMARY:");
    MissingLetterBefore("HYPOTHESIS: D SUMMARY: A", "SUMMARY:", 1, 14);
  }

  lemma OutOfOrderSummaryTail()
    ensures forall q: nat :: 22 <= q < 24 ==> !MatchesAny("HYPOTHESIS: D SUMMARY: A", q, SummaryRule.terminators)
  {
    assert SummaryRule.terminators == ["METHODOLOGY:", "ANALYSIS:", "HYPOTHESIS:"];
    forall q: nat | 22 <= q < 24
      ensures !MatchesAny("HYPOTHESIS: D SUMMARY: A", q, ["METHODOLOGY:", "ANALYSIS:", "HYPOTHESIS:"])
    {
      MatchesAnyIff("HYPOTHESIS: D SUMMARY: A", q, ["METHODOLOGY:", "ANALYSIS:", "HYPOTHESIS:"]);
    }
  }

  lemma OutOfOrderSummaryBody()
    ensures Strip("HYPOTHESIS: D SUMMARY: A"[22..24]) == "A"
  {
    StripSlice("HYPOTHESIS: D SUMMARY: A", 22, 23, 24, 24);
    assert "HYPOTHESIS: D SUMMARY: A"[23..24] == "A";
  }

  lemma OutOfOrderHypothesis()
    ensures Parse("HYPOTHESIS: D SUMMARY: A").hypothesis == "HYPOTHESIS: D SUMMARY: A"[12..]
  {
    OutOfOrderHypothesisAnchor();
    OutOfOrderHypothesisBody();
    HypothesisRunsToEnd("HYPOTHESIS: D SUMMARY: A", 0);
  }

  lemma OutOfOrderHypothesisAnchor()
    ensures FirstAt("HYPOTHESIS: D SUMMARY: A", 0, HypothesisAnchor)
  {
    MatchExact("HYPOTHESIS: D SUMMARY: A", 0, "HYPOTHESIS:");
  }

  lemma OutOfOrderHypothesisBody()
    ensures Strip("HYPOTHESIS: D SUMMARY: A"[11..]) == "HYPOTHESIS: D SUMMARY: A"[12..]
  {
    var text := "HYPOTHESIS: D SUMMARY: A";
    StripSlice(text, 11, 12, |text|, |text|);
  }

  /** The empty reply: all four placeholders. */
  lemma EmptyReply()
    ensures Parse("") == Placeholders
  {
  }

  /** Anchors match in any case, and an anchor with nothing after it yields
      the empty string rather than its placeholder. */
  lemma LowerCaseEmptySummary()
    ensures Parse("summary:") == Placeholders.(summary := "")
  {
    MatchAtChars("summary:", 0, "SUMMARY:");
    EmptyCapture("summary:", SummaryRule, 0, 8);
  }
}
