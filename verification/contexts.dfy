/** The `context += ...` loops that turn a list of records into one prompt
    string, one block per record. */
module Contexts {
  import opened Papers

  /** The blocks of `papers`, in order, concatenated. */
  function Join(papers: seq<Record>, block: Record -> string): string {
    if papers == [] then "" else Join(papers[..|papers| - 1], block) + block(papers[|papers| - 1])
  }

  /** Joining distributes over concatenation of the record lists. */
  lemma {:induction false} JoinAppend(a: seq<Record>, b: seq<Record>, block: Record -> string)
    ensures Join(a + b, block) == Join(a, block) + Join(b, block)
    decreases |b|
  {
    if b == [] {
      assert a + b == a;
    } else {
      var b' := b[..|b| - 1];
      assert (a + b)[..|a + b| - 1] == a + b';
      assert (a + b)[|a + b| - 1] == b[|b| - 1];
      JoinAppend(a, b', block);
    }
  }

  /** A single record's context is its block. */
  lemma JoinOne(p: Record, block: Record -> string)
    ensures Join([p], block) == block(p)
  {
    assert [p][..0] == [];
  }

  /** Record `k`'s block sits between the blocks of the records before it
      and those after it. */
  lemma JoinAt(papers: seq<Record>, k: nat, block: Record -> string)
    requires k < |papers|
    ensures Join(papers, block) ==
      Join(papers[..k], block) + block(papers[k]) + Join(papers[k + 1..], block)
  {
    var before, after := papers[..k], papers[k + 1..];
    assert papers == before + [papers[k]] + after;
    JoinAppend(before + [papers[k]], after, block);
    JoinAppend(before, [papers[k]], block);
    JoinOne(papers[k], block);
  }
}
