/** `writer_agent_universal`: topic, per-paper findings, global hypotheses
    and the data insight go into one request for a full paper draft. */
module Writer {
  import opened Wrappers
  import opened Papers
  import opened Contexts
  import opened Completion
  import opened Analyzer

  /** The model name reported with a draft. */
  const WriterModel := "Gemini-2.5-Flash"

  /** The model name reported when the request failed. */
  const NoModel := "None"

  /** The writer's result: the draft text and the model that wrote it. */
  datatype Draft = Draft(text: string, model: string)

  /** The header, literature, hypotheses and insight of the context. */
  function Frame(topic: string, literature: string, hypotheses: string, insight: string): string {
    "TOPIC: " + topic + "\n\nLITERATURE:\n" + literature +
    "HYPOTHESES:\n" + hypotheses + "\n\nDATA INSIGHTS:\n" + insight + "\n"
  }

  /** The reply, or the error text with no model name. */
  function Respond(reply: Result<string, string>): (d: Draft)
    ensures reply.Success? ==> d.text == reply.value && d.model == WriterModel
    ensures reply.Failure? ==> d.text == ErrorPrefix + reply.error && d.model == NoModel
  {
    match reply
    case Success(text) => Draft(text, WriterModel)
    case Failure(reason) => Draft(ErrorPrefix + reason, NoModel)
  }

  // ---------------------------------------------------------------------
  // As written: the three fields are indexed directly, outside the
  // exception handler, so a record without one of them stops the writer.

  /** The record has every field the literature block indexes. */
  predicate Ready(p: Record) {
    p.summary.Some? && p.methodology.Some? && p.analysis.Some?
  }

  predicate AllReady(papers: seq<Record>) {
    forall k :: 0 <= k < |papers| ==> Ready(papers[k])
  }

  function LiteratureBlock(p: Record): string
    requires Ready(p)
  {
    "Title: " + p.title + "\nSummary: " + p.summary.value + "\nMethod: " + p.methodology.value +
    "\nGap: " + p.analysis.value + "\n\n"
  }

  function Literature(papers: seq<Record>): string
    requires AllReady(papers)
  {
    if papers == [] then ""
    else Literature(papers[..|papers| - 1]) + LiteratureBlock(papers[|papers| - 1])
  }

  function WriterContext(topic: string, papers: seq<Record>, hypotheses: string, insight: string): string
    requires AllReady(papers)
  {
    Frame(topic, Literature(papers), hypotheses, insight)
  }

  /** The writer as written: defined only on records that all have a
      summary, a methodology and an analysis. */
  function WriterAgentAsWritten(topic: string, papers: seq<Record>, hypotheses: string, insight: string,
                                complete: Service): (d: Draft)
    requires AllReady(papers)
    ensures var reply := complete(PaperDraft(WriterContext(topic, papers, hypotheses, insight)));
      && (reply.Success? ==> d == Draft(reply.value, WriterModel))
      && (reply.Failure? ==> d == Draft(ErrorPrefix + reply.error, NoModel))
  {
    Respond(complete(PaperDraft(WriterContext(topic, papers, hypotheses, insight))))
  }

  /** A record whose analysis failed has no methodology and no analysis, so
      the writer as written cannot take the list the analyzer returns. */
  lemma FailedAnalysisStopsWriter(papers: seq<Record>, outcomes: seq<Result<string, string>>, i: nat)
    requires |outcomes| == |papers| && i < |papers|
    requires Unanalysed(papers[i]) && outcomes[i].Failure?
    ensures !AllReady(Analyze(papers, outcomes))
  {
    assert !Ready(Analyze(papers, outcomes)[i]);
  }

  // ---------------------------------------------------------------------
  // Corrected: a missing field reads as "", as the global hypothesis
  // context already does.

  function SafeBlock(p: Record): string {
    "Title: " + p.title + "\nSummary: " + p.summary.GetOr("") + "\nMethod: " + p.methodology.GetOr("") +
    "\nGap: " + p.analysis.GetOr("") + "\n\n"
  }

  function SafeWriterContext(topic: string, papers: seq<Record>, hypotheses: string, insight: string): string {
    Frame(topic, Join(papers, SafeBlock), hypotheses, insight)
  }

  /** The writer, total on every list of records. */
  function WriterAgent(topic: string, papers: seq<Record>, hypotheses: string, insight: string,
                       complete: Service): (d: Draft)
    ensures var reply := complete(PaperDraft(SafeWriterContext(topic, papers, hypotheses, insight)));
      && (reply.Success? ==> d == Draft(reply.value, WriterModel))
      && (reply.Failure? ==> d == Draft(ErrorPrefix + reply.error, NoModel))
  {
    Respond(complete(PaperDraft(SafeWriterContext(topic, papers, hypotheses, insight))))
  }

  /** On records that have the three fields, the two literature sections
      are the same text. */
  lemma {:induction false} ReadyLiteratureAgrees(papers: seq<Record>)
    requires AllReady(papers)
    ensures Literature(papers) == Join(papers, SafeBlock)
    decreases |papers|
  {
    if papers != [] {
      ReadyLiteratureAgrees(papers[..|papers| - 1]);
    }
  }

  /** Wherever the writer as written is defined, the corrected one sends
      the same request and returns the same draft. */
  lemma ReadyWriterAgrees(topic: string, papers: seq<Record>, hypotheses: string, insight: string,
                          complete: Service)
    requires AllReady(papers)
    ensures SafeWriterContext(topic, papers, hypotheses, insight) == WriterContext(topic, papers, hypotheses, insight)
    ensures WriterAgent(topic, papers, hypotheses, insight, complete) ==
      WriterAgentAsWritten(topic, papers, hypotheses, insight, complete)
  {
    ReadyLiteratureAgrees(papers);
  }

  /** Paper `k`'s literature block sits in list order within the context. */
  lemma LiteratureOrder(papers: seq<Record>, k: nat)
    requires k < |papers|
    ensures Join(papers, SafeBlock) ==
      Join(papers[..k], SafeBlock) + SafeBlock(papers[k]) + Join(papers[k + 1..], SafeBlock)
  {
    JoinAt(papers, k, SafeBlock);
  }
}
