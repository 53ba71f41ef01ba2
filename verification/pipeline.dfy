/** The research run and the report step of the user interface, put
    together from the stages. */
module Pipeline {
  import opened Wrappers
  import opened Sections
  import opened Papers
  import opened Completion
  import opened Analyzer
  import opened Synthesis
  import opened Writer

  /** The insight the writer gets when the analyst has produced no result. */
  const NoInsight := "No Data Analysis Performed."

  /** The analyst's insight, or the stand-in text when there is none. */
  function Insight(analyst: Option<string>): (s: string)
    ensures analyst.None? ==> s == NoInsight
    ensures analyst.Some? ==> s == analyst.value
  {
    analyst.GetOr(NoInsight)
  }

  /** "Start Research Agents": filter the search results, analyse each
      survivor (`outcomes(k)` is the reply for the `k`-th), and ask for the
      global hypotheses. */
  method Research(raw: seq<Record>, lookup: string -> Lookup, outcomes: nat -> Result<string, string>,
                  topic: string, complete: Service)
    returns (kb: seq<Record>, hypotheses: string)
    ensures |kb| <= MaxPapers
    ensures forall k, l :: 0 <= k < l < |kb| ==> kb[k].title != kb[l].title
    ensures forall k :: 0 <= k < |kb| ==> |kb[k].abstractText| >= MinAbstract && kb[k].summary.Some?
    ensures forall k :: 0 <= k < |kb| && outcomes(k).Success? ==>
      HasSections(kb[k]) && SectionsOf(kb[k]) == Parse(outcomes(k).value)
    ensures var ids := Kept(raw, |raw|);
      && |kb| == Min(MaxPapers, |ids|)
      && forall k :: 0 <= k < |kb| ==> kb[k] == AnalyzeOne(Enrich(raw[ids[k]], lookup), outcomes(k))
    ensures hypotheses == GlobalHypotheses(kb, topic, complete)
    ensures complete(GlobalSynthesis(topic, HypothesisContext(kb))).Failure? ==> hypotheses == FailureSentinel
    ensures (forall i :: 0 <= i < |raw| ==> Unanalysed(raw[i])) ==>
      (exists k :: 0 <= k < |kb| && outcomes(k).Failure?) ==> !AllReady(kb)
  {
    var clean := CleanAndDeduplicate(raw, lookup);
    var replies := seq(|clean|, (k: nat) => outcomes(k));
    kb := Analyze(clean, replies);
    AnalysedSurvivors(clean, replies, outcomes);
    FailedReplyStopsWriter(raw, lookup, clean, replies, outcomes);
    hypotheses := GlobalHypotheses(kb, topic, complete);
  }

  /** What the filter promises about its output still holds after the
      analysis, and each record carries its own reply's sections. */
  lemma AnalysedSurvivors(clean: seq<Record>, replies: seq<Result<string, string>>,
                          outcomes: nat -> Result<string, string>)
    requires |replies| == |clean| && forall k :: 0 <= k < |clean| ==> replies[k] == outcomes(k)
    requires |clean| <= MaxPapers
    requires forall k, l :: 0 <= k < l < |clean| ==> clean[k].title != clean[l].title
    requires forall k :: 0 <= k < |clean| ==> |clean[k].abstractText| >= MinAbstract
    ensures var kb := Analyze(clean, replies);
      && |kb| <= MaxPapers
      && (forall k, l :: 0 <= k < l < |kb| ==> kb[k].title != kb[l].title)
      && (forall k :: 0 <= k < |kb| ==> |kb[k].abstractText| >= MinAbstract && kb[k].summary.Some?)
      && (forall k :: 0 <= k < |kb| && outcomes(k).Success? ==>
            HasSections(kb[k]) && SectionsOf(kb[k]) == Parse(outcomes(k).value))
  {
    var kb := Analyze(clean, replies);
    forall k | 0 <= k < |clean|
      ensures kb[k].title == clean[k].title && kb[k].abstractText == clean[k].abstractText
    {
      assert SameBibliography(clean[k], kb[k]);
    }
  }

  /** In a run on freshly searched records, one failed reply is enough to
      leave the knowledge base unfit for the writer as written. */
  lemma FailedReplyStopsWriter(raw: seq<Record>, lookup: string -> Lookup, clean: seq<Record>,
                               replies: seq<Result<string, string>>, outcomes: nat -> Result<string, string>)
    requires var ids := Kept(raw, |raw|);
      && |clean| == Min(MaxPapers, |ids|)
      && forall k :: 0 <= k < |clean| ==> clean[k] == Enrich(raw[ids[k]], lookup)
    requires |replies| == |clean| && forall k :: 0 <= k < |clean| ==> replies[k] == outcomes(k)
    ensures (forall i :: 0 <= i < |raw| ==> Unanalysed(raw[i])) ==>
      (exists k :: 0 <= k < |clean| && outcomes(k).Failure?) ==>
      !AllReady(Analyze(clean, replies))
  {
    if (forall i :: 0 <= i < |raw| ==> Unanalysed(raw[i])) && (exists k :: 0 <= k < |clean| && outcomes(k).Failure?) {
      var k :| 0 <= k < |clean| && outcomes(k).Failure?;
      var ids := Kept(raw, |raw|);
      assert Unanalysed(raw[ids[k]]);
      assert Unanalysed(clean[k]);
      FailedAnalysisStopsWriter(clean, replies, k);
    }
  }

  /** "Generate PDF Report", with the corrected writer. */
  function Report(topic: string, kb: seq<Record>, hypotheses: string, analyst: Option<string>,
                  complete: Service): (d: Draft)
    ensures d.model == WriterModel || d.model == NoModel
    ensures AllReady(kb) ==> d == WriterAgentAsWritten(topic, kb, hypotheses, Insight(analyst), complete)
  {
    ReadyWriterAgreesWhen(topic, kb, hypotheses, Insight(analyst), complete);
    WriterAgent(topic, kb, hypotheses, Insight(analyst), complete)
  }

  lemma ReadyWriterAgreesWhen(topic: string, papers: seq<Record>, hypotheses: string, insight: string,
                              complete: Service)
    ensures AllReady(papers) ==>
      WriterAgent(topic, papers, hypotheses, insight, complete) ==
      WriterAgentAsWritten(topic, papers, hypotheses, insight, complete)
  {
    if AllReady(papers) {
      ReadyWriterAgrees(topic, papers, hypotheses, insight, complete);
    }
  }
}
