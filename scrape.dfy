/**
 * The loop of the `/scrape` handler over the matched `<article>` blocks.
 * Fetching the page, parsing it and the store inserts are not modelled.
 */
module Scrape {
  import opened Extract

  /** `cands` holds the candidates of the first `n` blocks, in order. */
  ghost predicate CandidatesOfPrefix(blocks: seq<Block>, n: nat, cands: seq<Candidate>) {
    n <= |blocks| && |cands| == n && forall k :: 0 <= k < n ==> cands[k] == CandidateOf(blocks[k])
  }

  /** Appending the next block's candidate extends the prefix by one. */
  lemma AppendCandidate(blocks: seq<Block>, n: nat, cands: seq<Candidate>, c: Candidate)
    requires CandidatesOfPrefix(blocks, n, cands) && n < |blocks| && c == CandidateOf(blocks[n])
    ensures CandidatesOfPrefix(blocks, n + 1, cands + [c])
  {
    var next := cands + [c];
    forall k | 0 <= k < n + 1
      ensures next[k] == CandidateOf(blocks[k])
    {
      if k < n {
        assert next[k] == cands[k];
      } else {
        assert next[k] == c;
      }
    }
  }

  /** The `.each` loop: one candidate per matched block, in document order;
      nothing is dropped for an empty title or a missing link. */
  method ScrapeBlocks(blocks: seq<Block>) returns (cands: seq<Candidate>)
    ensures |cands| == |blocks|
    ensures forall i :: 0 <= i < |blocks| ==> cands[i] == CandidateOf(blocks[i])
  {
    cands := [];
    var i := 0;
    while i < |blocks|
      invariant CandidatesOfPrefix(blocks, i, cands)
    {
      var c := BuildCandidate(blocks[i]);
      AppendCandidate(blocks, i, cands, c);
      cands := cands + [c];
      i := i + 1;
    }
  }
}
