/** `agent_logic_processor`: every record is sent for analysis and its
    reply parsed into the four section fields. */
module Analyzer {
  import opened Wrappers
  import opened Sections
  import opened SectionLayout
  import opened Papers

  /** What a failed analysis writes in front of the exception message. */
  const ErrorPrefix := "Error: "

  /** The four section fields of `p` are all present. */
  predicate HasSections(p: Record) {
    p.summary.Some? && p.methodology.Some? && p.analysis.Some? && p.hypothesis.Some?
  }

  /** The section fields of `p`, when it has them all. */
  function SectionsOf(p: Record): Sections
    requires HasSections(p)
  {
    Sections(p.summary.value, p.methodology.value, p.analysis.value, p.hypothesis.value)
  }

  /** `p` and `q` agree on everything but the four section fields. */
  predicate SameBibliography(p: Record, q: Record) {
    p.(summary := q.summary, methodology := q.methodology, analysis := q.analysis, hypothesis := q.hypothesis) == q
  }

  /** One iteration of the loop. A reply overwrites all four fields with
      what the parser makes of it, placeholders included; a failure writes
      only `summary`, and the other three stay as they were. */
  function AnalyzeOne(p: Record, outcome: Result<string, string>): (r: Record)
    ensures SameBibliography(p, r)
    ensures outcome.Success? ==> HasSections(r) && SectionsOf(r) == Parse(outcome.value)
    ensures outcome.Failure? ==>
      && r.summary == Some(ErrorPrefix + outcome.error)
      && r.methodology == p.methodology && r.analysis == p.analysis && r.hypothesis == p.hypothesis
  {
    match outcome
    case Success(text) =>
      var s := Parse(text);
      p.(summary := Some(s.summary), methodology := Some(s.methodology),
         analysis := Some(s.analysis), hypothesis := Some(s.hypothesis))
    case Failure(reason) =>
      p.(summary := Some(ErrorPrefix + reason))
  }

  /** The loop over all records, `outcomes[i]` being the reply to record
      `i`: same length, same order, record by record. */
  function Analyze(papers: seq<Record>, outcomes: seq<Result<string, string>>): (r: seq<Record>)
    requires |outcomes| == |papers|
    ensures |r| == |papers|
    ensures forall i :: 0 <= i < |papers| ==> r[i] == AnalyzeOne(papers[i], outcomes[i])
  {
    if papers == [] then []
    else
      var rest := Analyze(papers[1..], outcomes[1..]);
      assert forall i :: 1 <= i < |papers| ==> rest[i - 1] == AnalyzeOne(papers[i], outcomes[i]);
      [AnalyzeOne(papers[0], outcomes[0])] + rest
  }

  /** One record's reply decides that record alone. */
  lemma Isolation(papers: seq<Record>, o1: seq<Result<string, string>>, o2: seq<Result<string, string>>, i: nat)
    requires |o1| == |papers| && |o2| == |papers| && i < |papers| && o1[i] == o2[i]
    ensures Analyze(papers, o1)[i] == Analyze(papers, o2)[i]
  {
  }

  /** After the loop every record has a summary: the parsed one, a
      placeholder, or the error message. */
  lemma SummaryAlwaysSet(papers: seq<Record>, outcomes: seq<Result<string, string>>)
    requires |outcomes| == |papers|
    ensures forall i :: 0 <= i < |papers| ==> Analyze(papers, outcomes)[i].summary.Some?
  {
  }

  /** A failed analysis of a record not analysed before leaves methodology,
      analysis and hypothesis absent, not set to their placeholders. */
  lemma FailureLeavesSectionsOut(p: Record, reason: string)
    requires Unanalysed(p)
    ensures var r := AnalyzeOne(p, Failure(reason));
      r.summary == Some(ErrorPrefix + reason) && r.methodology.None? && r.analysis.None? && r.hypothesis.None?
  {
  }

  /** A reply laid out with the four headers is analysed back into exactly
      the sections it was laid out from. */
  lemma AnalyzeRendered(p: Record, s: Sections)
    requires Renderable(s)
    ensures HasSections(AnalyzeOne(p, Success(Render(s))))
    ensures SectionsOf(AnalyzeOne(p, Success(Render(s)))) == s
  {
    ParseRender(s);
  }
}
