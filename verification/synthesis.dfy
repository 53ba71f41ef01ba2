/** `global_hypothesis_generator`: the findings of all analysed papers go
    into one request for ranked global hypotheses. */
module Synthesis {
  import opened Wrappers
  import opened Papers
  import opened Contexts
  import opened Completion

  /** What the generator returns when the request fails. */
  const FailureSentinel := "Global Hypothesis Generation Failed."

  /** One paper's findings; a missing analysis or hypothesis reads as "". */
  function HypothesisBlock(p: Record): string {
    "Paper: " + p.title + "\nGap: " + p.analysis.GetOr("") + "\nHypothesis: " + p.hypothesis.GetOr("") + "\n\n"
  }

  /** The findings context: one block per paper, in list order. */
  function HypothesisContext(papers: seq<Record>): string {
    Join(papers, HypothesisBlock)
  }

  /** The context of a longer list extends the context of its prefix. */
  lemma HypothesisContextAppend(a: seq<Record>, b: seq<Record>)
    ensures HypothesisContext(a + b) == HypothesisContext(a) + HypothesisContext(b)
  {
    JoinAppend(a, b, HypothesisBlock);
  }

  /** Paper `k`'s block follows the blocks of the papers before it and
      precedes those of the papers after it. */
  lemma HypothesisContextOrder(papers: seq<Record>, k: nat)
    requires k < |papers|
    ensures HypothesisContext(papers) ==
      HypothesisContext(papers[..k]) + HypothesisBlock(papers[k]) + HypothesisContext(papers[k + 1..])
  {
    JoinAt(papers, k, HypothesisBlock);
  }

  /** The context reads only the title, analysis and hypothesis of each
      paper: papers that agree on those give the same context. */
  lemma {:induction false} HypothesisContextReads(a: seq<Record>, b: seq<Record>)
    requires |a| == |b|
    requires forall i :: 0 <= i < |a| ==>
      a[i].title == b[i].title && a[i].analysis == b[i].analysis && a[i].hypothesis == b[i].hypothesis
    ensures HypothesisContext(a) == HypothesisContext(b)
    decreases |a|
  {
    if a != [] {
      HypothesisContextReads(a[..|a| - 1], b[..|b| - 1]);
    }
  }

  /** The generator: the reply text, or the sentinel on any failure. */
  function GlobalHypotheses(papers: seq<Record>, topic: string, complete: Service): (r: string)
    ensures complete(GlobalSynthesis(topic, HypothesisContext(papers))).Failure? ==> r == FailureSentinel
    ensures complete(GlobalSynthesis(topic, HypothesisContext(papers))).Success? ==>
      r == complete(GlobalSynthesis(topic, HypothesisContext(papers))).value
  {
    match complete(GlobalSynthesis(topic, HypothesisContext(papers)))
    case Success(text) => text
    case Failure(_) => FailureSentinel
  }

  /** Knowledge bases that agree on every paper's title, analysis and
      hypothesis get the same global hypotheses. */
  lemma SameFindingsSameHypotheses(a: seq<Record>, b: seq<Record>, topic: string, complete: Service)
    requires |a| == |b|
    requires forall i :: 0 <= i < |a| ==>
      a[i].title == b[i].title && a[i].analysis == b[i].analysis && a[i].hypothesis == b[i].hypothesis
    ensures GlobalHypotheses(a, topic, complete) == GlobalHypotheses(b, topic, complete)
  {
    HypothesisContextReads(a, b);
  }
}
