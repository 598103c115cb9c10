/**
  Block reconstruction as the source writes it (`bdict.get('hash',
  compute_hash())`), kept beside the corrected `Blocks.Reconstruct` to show
  where the two part ways.
 */
module Findings {
  import opened Wrappers
  import opened Blocks
  import opened Validation

  /**
    A missing hash is recomputed, but a null one stays None and an empty one
    stays empty, although `is_chain_valid` recomputes the digest in both cases.
   */
  function ReconstructAsWritten(h: HashFn, r: BlockRecord): (b: Block)
    ensures b.header == HeaderOf(r)
    ensures r.hash.Null? ==> b.hash == None
    ensures r.hash.Missing? ==> b.hash == Some(h(HeaderOf(r)))
  {
    Block(HeaderOf(r),
          match r.hash
          case Missing => Some(h(HeaderOf(r)))
          case Null => None
          case Stated(s) => Some(s))
  }

  function ReconstructChainAsWritten(h: HashFn, rs: seq<BlockRecord>): (chain: seq<Block>)
    ensures |chain| == |rs|
    ensures forall i :: 0 <= i < |rs| ==> chain[i] == ReconstructAsWritten(h, rs[i])
  {
    seq(|rs|, i requires 0 <= i < |rs| => ReconstructAsWritten(h, rs[i]))
  }

  /**
    A valid candidate whose last record has `"hash": null` is adopted with a
    head whose hash is None. The next mined block takes that None as its
    `previous_hash` and passes `add_block`'s check (None == None), yet the
    chain it produces no longer passes `is_chain_valid`.
   */
  lemma NullHashBreaksNextBlock(h: HashFn, candidate: seq<BlockRecord>, next: Header, proof: string)
    requires IsChainValid(h, candidate) && candidate[|candidate| - 1].hash.Null?
    requires next.previousHash == ReconstructChainAsWritten(h, candidate)[|candidate| - 1].hash
    requires IsValidProof(h, next, proof)
    ensures next.previousHash == None
    ensures !IsChainValid(h, Records(ReconstructChainAsWritten(h, candidate) + [Block(next, Some(proof))]))
  {
    var adopted := ReconstructChainAsWritten(h, candidate);
    var rs := Records(adopted + [Block(next, Some(proof))]);
    ChainValidIff(h, rs);
    assert !Linked(h, rs, |candidate|);
  }

  /** The situation is reachable: a two-block candidate shows it for a constant digest. */
  lemma NullHashCandidateExists()
    ensures var h: HashFn := (hd: Header) => Zeros(DIGEST_LENGTH);
            var digest := Zeros(DIGEST_LENGTH);
            var candidate := [
              BlockRecord(0, 0.0, [], Some("0"), Some(0), Stated(digest)),
              BlockRecord(1, 0.0, [], Some(digest), Some(0), Null)];
            IsChainValid(h, candidate)
            && ReconstructChainAsWritten(h, candidate)[1].hash == None
  {
  }
}
