/** Paper records, the citation lookup that enriches them, and the filter
    that deduplicates, drops short abstracts and caps the list. */
module Papers {
  import opened Wrappers

  /** A paper as the pipeline carries it. The search fills the first six
      fields; enrichment adds `citations` and `concepts`; the analyzer adds
      the four section fields. `None` is a key the record does not have. */
  datatype Record = Record(
    title: string,
    abstractText: string,
    url: string,
    pdfUrl: Option<string>,
    doi: Option<string>,
    date: string,
    citations: Option<int>,
    concepts: Option<seq<string>>,
    summary: Option<string>,
    methodology: Option<string>,
    analysis: Option<string>,
    hypothesis: Option<string>)

  /** The record has none of the four section fields yet, as every record
      the search returns. */
  predicate Unanalysed(p: Record) {
    p.summary.None? && p.methodology.None? && p.analysis.None? && p.hypothesis.None?
  }

  function Min(a: int, b: int): int {
    if a <= b then a else b
  }

  // ---------------------------------------------------------------------
  // enrich_metadata

  /** One entry of a work's `concepts` list; `None` when it has no
      `display_name` key. */
  datatype Concept = Concept(displayName: Option<string>)

  /** One work of the search reply; `None` marks a missing key. */
  datatype Work = Work(citedByCount: Option<int>, concepts: Option<seq<Concept>>)

  /** What the works search returns for a title: a failed request (no
      response, or a body that is not JSON), or a decoded reply whose
      `results` key may be missing. */
  datatype Lookup = RequestFailed | Reply(results: Option<seq<Work>>)

  /** The `citations` and `concepts` a lookup contributes. */
  datatype Metadata = Metadata(citations: int, concepts: seq<string>)

  /** The fallback when the lookup fails or finds nothing. */
  const NoMetadata := Metadata(0, [])

  /** How many concepts a record keeps at most. */
  const MaxConcepts := 3

  /** The reply names at least one work. */
  predicate Found(lookup: Lookup) {
    lookup.Reply? && lookup.results.Some? && |lookup.results.value| > 0
  }

  /** The concepts of the first work that enrichment looks at. */
  function LeadingConcepts(w: Work): (cs: seq<Concept>)
    ensures |cs| == Min(MaxConcepts, |w.concepts.GetOr([])|)
    ensures cs == w.concepts.GetOr([])[..|cs|]
  {
    var all := w.concepts.GetOr([]);
    if |all| <= MaxConcepts then all else all[..MaxConcepts]
  }

  predicate Named(cs: seq<Concept>) {
    forall i :: 0 <= i < |cs| ==> cs[i].displayName.Some?
  }

  /** The display names of `cs`, in order. */
  function Names(cs: seq<Concept>): (r: seq<string>)
    requires Named(cs)
    ensures |r| == |cs|
    ensures forall i :: 0 <= i < |cs| ==> r[i] == cs[i].displayName.value
  {
    if cs == [] then [] else [cs[0].displayName.value] + Names(cs[1..])
  }

  /** `enrich_metadata` once the reply is in: the first work's citation
      count (0 when absent) and the display names of its first three
      concepts. Every failure, a missing key included, gives the fallback. */
  function EnrichMetadata(lookup: Lookup): (m: Metadata)
    ensures |m.concepts| <= MaxConcepts
    ensures !Found(lookup) ==> m == NoMetadata
    ensures Found(lookup) ==>
      var w := lookup.results.value[0];
      var all := w.concepts.GetOr([]);
      var k := Min(MaxConcepts, |all|);
      if forall i :: 0 <= i < k ==> all[i].displayName.Some? then
        && m.citations == w.citedByCount.GetOr(0)
        && |m.concepts| == k
        && forall i :: 0 <= i < k ==> m.concepts[i] == all[i].displayName.value
      else
        m == NoMetadata
  {
    if !Found(lookup) then NoMetadata
    else
      var w := lookup.results.value[0];
      var cs := LeadingConcepts(w);
      if Named(cs) then Metadata(w.citedByCount.GetOr(0), Names(cs)) else NoMetadata
  }

  /** `p` with the lookup's metadata written into it. */
  function Enriched(p: Record, m: Metadata): (r: Record)
    ensures r.citations == Some(m.citations) && r.concepts == Some(m.concepts)
    ensures r.(citations := p.citations, concepts := p.concepts) == p
  {
    p.(citations := Some(m.citations), concepts := Some(m.concepts))
  }

  /** Enrichment of one record: the search is keyed by its title. */
  function Enrich(p: Record, lookup: string -> Lookup): Record {
    Enriched(p, EnrichMetadata(lookup(p.title)))
  }

  // ---------------------------------------------------------------------
  // clean_and_deduplicate

  /** The shortest abstract the filter keeps. */
  const MinAbstract := 50

  /** How many records the filter returns at most. */
  const MaxPapers := 5

  /** No record before `i` has record `i`'s title. */
  predicate FirstOfTitle(papers: seq<Record>, i: nat)
    requires i < |papers|
  {
    forall j :: 0 <= j < i ==> papers[j].title != papers[i].title
  }

  /** Record `i` is the first with its title, and its abstract is long
      enough. A title counts as seen before its abstract is checked, so a
      record is dropped when an EARLIER record has its title, whatever
      happened to that earlier one. */
  predicate Survives(papers: seq<Record>, i: nat)
    requires i < |papers|
  {
    FirstOfTitle(papers, i) && |papers[i].abstractText| >= MinAbstract
  }

  /** The positions below `n` that survive, in increasing order: the
      reference the filter is specified against. */
  function Kept(papers: seq<Record>, n: nat): (ids: seq<nat>)
    requires n <= |papers|
    ensures forall k :: 0 <= k < |ids| ==> ids[k] < n && Survives(papers, ids[k])
    ensures forall k, l :: 0 <= k < l < |ids| ==> ids[k] < ids[l]
  {
    if n == 0 then []
    else Kept(papers, n - 1) + (if Survives(papers, n - 1) then [n - 1] else [])
  }

  /** The survivors below `n` are exactly the positions `Kept` lists. */
  lemma {:induction false} KeptMembers(papers: seq<Record>, n: nat, i: nat)
    requires i < n <= |papers|
    ensures i in Kept(papers, n) <==> Survives(papers, i)
  {
    if i < n - 1 {
      KeptMembers(papers, n - 1, i);
    } else {
      assert i !in Kept(papers, n - 1);
    }
  }

  /** The titles of the records before `i`. */
  function TitlesBefore(papers: seq<Record>, i: nat): set<string>
    requires i <= |papers|
  {
    set j | 0 <= j < i :: papers[j].title
  }

  /** `clean` holds the records at `ids`, each enriched. */
  predicate EnrichedAt(clean: seq<Record>, papers: seq<Record>, ids: seq<nat>, lookup: string -> Lookup) {
    && |clean| == |ids|
    && forall k :: 0 <= k < |ids| ==> ids[k] < |papers| && clean[k] == Enrich(papers[ids[k]], lookup)
  }

  /** `clean_and_deduplicate`: the first five survivors, in input order,
      each enriched with its own lookup. */
  method CleanAndDeduplicate(papers: seq<Record>, lookup: string -> Lookup) returns (clean: seq<Record>)
    ensures var ids := Kept(papers, |papers|);
      && |clean| == Min(MaxPapers, |ids|)
      && forall k :: 0 <= k < |clean| ==> clean[k] == Enrich(papers[ids[k]], lookup)
    ensures |clean| <= MaxPapers
    ensures forall k, l :: 0 <= k < l < |clean| ==> clean[k].title != clean[l].title
    ensures forall k :: 0 <= k < |clean| ==> |clean[k].abstractText| >= MinAbstract
    ensures forall k :: 0 <= k < |clean| ==>
      clean[k].concepts.Some? && |clean[k].concepts.value| <= MaxConcepts
  {
    var cleanList: seq<Record> := [];
    var seenTitles: set<string> := {};
    for i := 0 to |papers|
      invariant seenTitles == TitlesBefore(papers, i)
      invariant EnrichedAt(cleanList, papers, Kept(papers, i), lookup)
    {
      var p := papers[i];
      SeenStep(papers, i);
      if p.title in seenTitles {
        DroppedStep(cleanList, papers, i, lookup);
        continue;
      }
      seenTitles := seenTitles + {p.title};
      if |p.abstractText| == 0 || |p.abstractText| < MinAbstract {
        DroppedStep(cleanList, papers, i, lookup);
        continue;
      }
      KeptStep(cleanList, papers, i, lookup);
      cleanList := cleanList + [Enrich(p, lookup)];
    }
    clean := cleanList[..Min(MaxPapers, |cleanList|)];
    FirstSurvivors(papers, lookup, clean);
  }

  /** The seen-title set tells the first record of each title from the rest. */
  lemma SeenStep(papers: seq<Record>, i: nat)
    requires i < |papers|
    ensures papers[i].title in TitlesBefore(papers, i) <==> !FirstOfTitle(papers, i)
    ensures TitlesBefore(papers, i) + {papers[i].title} == TitlesBefore(papers, i + 1)
  {
    if !FirstOfTitle(papers, i) {
      var j :| 0 <= j < i && papers[j].title == papers[i].title;
      assert papers[j].title in TitlesBefore(papers, i);
    }
  }

  /** A dropped record leaves the list as it was. */
  lemma DroppedStep(clean: seq<Record>, papers: seq<Record>, i: nat, lookup: string -> Lookup)
    requires i < |papers| && !Survives(papers, i)
    requires EnrichedAt(clean, papers, Kept(papers, i), lookup)
    ensures EnrichedAt(clean, papers, Kept(papers, i + 1), lookup)
  {
    assert Kept(papers, i + 1) == Kept(papers, i) + [];
  }

  /** A surviving record is appended, enriched. */
  lemma KeptStep(clean: seq<Record>, papers: seq<Record>, i: nat, lookup: string -> Lookup)
    requires i < |papers| && Survives(papers, i)
    requires EnrichedAt(clean, papers, Kept(papers, i), lookup)
    ensures EnrichedAt(clean + [Enrich(papers[i], lookup)], papers, Kept(papers, i + 1), lookup)
  {
    assert Kept(papers, i + 1) == Kept(papers, i) + [i];
  }

  /** What the first survivors, enriched, have in common. */
  lemma FirstSurvivors(papers: seq<Record>, lookup: string -> Lookup, clean: seq<Record>)
    requires var ids := Kept(papers, |papers|);
      && |clean| == Min(MaxPapers, |ids|)
      && forall k :: 0 <= k < |clean| ==> clean[k] == Enrich(papers[ids[k]], lookup)
    ensures |clean| <= MaxPapers
    ensures forall k, l :: 0 <= k < l < |clean| ==> clean[k].title != clean[l].title
    ensures forall k :: 0 <= k < |clean| ==> |clean[k].abstractText| >= MinAbstract
    ensures forall k :: 0 <= k < |clean| ==>
      clean[k].concepts.Some? && |clean[k].concepts.value| <= MaxConcepts
  {
    var ids := Kept(papers, |papers|);
    DistinctSurvivors(papers, |papers|);
    forall k | 0 <= k < |clean|
      ensures clean[k].title == papers[ids[k]].title
      ensures clean[k].abstractText == papers[ids[k]].abstractText
    {
    }
  }

  /** Survivors have pairwise distinct titles. */
  lemma DistinctSurvivors(papers: seq<Record>, n: nat)
    requires n <= |papers|
    ensures var ids := Kept(papers, n);
      forall k, l :: 0 <= k < l < |ids| ==> papers[ids[k]].title != papers[ids[l]].title
  {
    var ids := Kept(papers, n);
    forall k, l | 0 <= k < l < |ids|
      ensures papers[ids[k]].title != papers[ids[l]].title
    {
      assert ids[k] < ids[l] && Survives(papers, ids[l]);
    }
  }

  /** A record whose title appeared earlier is dropped, even when that
      earlier record was itself dropped for its short abstract. */
  lemma EarlierTitleShadows(papers: seq<Record>, j: nat, i: nat)
    requires j < i < |papers| && papers[j].title == papers[i].title
    ensures i !in Kept(papers, |papers|)
  {
    KeptMembers(papers, |papers|, i);
    assert !FirstOfTitle(papers, i);
  }
}
