/**
  Whole-chain validation (`is_chain_valid`) and the facts it guarantees.
 */
module Validation {
  import opened Wrappers
  import opened Blocks

  /**
    `is_chain_valid`: an empty chain is invalid; the first record's hash is
    trusted; every later record must link to the hash attributed to its
    predecessor and carry a valid proof.
   */
  function IsChainValid(h: HashFn, rs: seq<BlockRecord>): (ok: bool)
    ensures ok ==> |rs| > 0
    ensures |rs| == 1 ==> ok
  {
    |rs| > 0 && ValidAfter(h, EffectiveHash(h, rs[0]), rs[1..])
  }

  /** The loop of `is_chain_valid` from the record after the one whose hash is `last`. */
  function ValidAfter(h: HashFn, last: string, rest: seq<BlockRecord>): bool
    decreases |rest|
  {
    rest == [] ||
    (rest[0].previousHash == Some(last)
     && IsValidProof(h, HeaderOf(rest[0]), EffectiveHash(h, rest[0]))
     && ValidAfter(h, EffectiveHash(h, rest[0]), rest[1..]))
  }

  /** Record `i` links to record `i - 1` and carries a valid proof. */
  predicate Linked(h: HashFn, rs: seq<BlockRecord>, i: int)
    requires 1 <= i < |rs|
  {
    rs[i].previousHash == Some(EffectiveHash(h, rs[i - 1]))
    && IsValidProof(h, HeaderOf(rs[i]), EffectiveHash(h, rs[i]))
  }

  lemma {:induction false} ValidAfterIff(h: HashFn, rs: seq<BlockRecord>, k: nat)
    requires 1 <= k <= |rs|
    ensures ValidAfter(h, EffectiveHash(h, rs[k - 1]), rs[k..]) <==> forall i :: k <= i < |rs| ==> Linked(h, rs, i)
    decreases |rs| - k
  {
    if k < |rs| {
      assert rs[k..][0] == rs[k];
      assert rs[k..][1..] == rs[k + 1..];
      ValidAfterIff(h, rs, k + 1);
      assert (forall i :: k <= i < |rs| ==> Linked(h, rs, i))
        <==> Linked(h, rs, k) && forall i :: k + 1 <= i < |rs| ==> Linked(h, rs, i);
    }
  }

  /**
    A chain is valid exactly when it is non-empty and every record after the
    first links to its predecessor and carries a valid proof.
   */
  lemma {:induction false} ChainValidIff(h: HashFn, rs: seq<BlockRecord>)
    ensures IsChainValid(h, rs) <==> |rs| > 0 && forall i :: 1 <= i < |rs| ==> Linked(h, rs, i)
  {
    if |rs| > 0 {
      ValidAfterIff(h, rs, 1);
    }
  }

  /**
    In a valid chain every block after the genesis block is sealed with its own
    digest, and that digest meets the difficulty.
   */
  lemma ValidChainProofs(h: HashFn, rs: seq<BlockRecord>, i: nat)
    requires IsChainValid(h, rs) && 1 <= i < |rs|
    ensures EffectiveHash(h, rs[i]) == h(HeaderOf(rs[i]))
    ensures MeetsDifficulty(h(HeaderOf(rs[i])))
    ensures rs[i].previousHash == Some(EffectiveHash(h, rs[i - 1]))
  {
    ChainValidIff(h, rs);
    assert Linked(h, rs, i);
  }

  /**
    For the ledger's own (sealed) blocks: a valid chain links each block's
    `previous_hash` to its predecessor's `hash`, and each later hash is a valid proof.
   */
  lemma SealedChainLinkage(h: HashFn, chain: seq<Block>)
    requires forall i :: 0 <= i < |chain| ==> Sealed(chain[i])
    requires IsChainValid(h, Records(chain))
    ensures forall i :: 1 <= i < |chain| ==>
      chain[i].header.previousHash == chain[i - 1].hash
      && Sealed(chain[i]) && IsValidProof(h, chain[i].header, chain[i].hash.value)
  {
    var rs := Records(chain);
    forall i | 1 <= i < |chain|
      ensures chain[i].header.previousHash == chain[i - 1].hash
      ensures Sealed(chain[i]) && IsValidProof(h, chain[i].header, chain[i].hash.value)
    {
      ValidChainProofs(h, rs, i);
    }
  }

  /**
    Appending a block that links to the head's hash and carries a valid proof
    (what `add_block` checks) keeps a valid chain valid.
   */
  lemma AppendKeepsChainValid(h: HashFn, chain: seq<Block>, hd: Header, proof: string)
    requires |chain| > 0 && Sealed(chain[|chain| - 1])
    requires IsChainValid(h, Records(chain))
    requires hd.previousHash == chain[|chain| - 1].hash
    requires IsValidProof(h, hd, proof)
    ensures IsChainValid(h, Records(chain + [Block(hd, Some(proof))]))
  {
    var rs := Records(chain);
    var rs' := Records(chain + [Block(hd, Some(proof))]);
    ChainValidIff(h, rs);
    forall i | 1 <= i < |rs'|
      ensures Linked(h, rs', i)
    {
      if i < |rs| {
        assert rs'[i] == rs[i] && rs'[i - 1] == rs[i - 1];
        assert Linked(h, rs, i);
      }
    }
    ChainValidIff(h, rs');
  }

  /**
    Two record chains that agree, record by record, on the hashed fields and
    on the hash validation attributes are valid or invalid together.
   */
  lemma SameLinkageSameValidity(h: HashFn, rs: seq<BlockRecord>, ts: seq<BlockRecord>)
    requires |rs| == |ts|
    requires forall i :: 0 <= i < |rs| ==> HeaderOf(rs[i]) == HeaderOf(ts[i])
    requires forall i :: 0 <= i < |rs| ==> EffectiveHash(h, rs[i]) == EffectiveHash(h, ts[i])
    ensures IsChainValid(h, rs) <==> IsChainValid(h, ts)
  {
    ChainValidIff(h, rs);
    ChainValidIff(h, ts);
    forall i | 1 <= i < |rs|
      ensures Linked(h, rs, i) <==> Linked(h, ts, i)
    {
      assert HeaderOf(rs[i]).previousHash == HeaderOf(ts[i]).previousHash;
    }
  }

  /** Adopting a valid chain keeps it valid once it is the ledger's own. */
  lemma ReconstructKeepsChainValid(h: HashFn, rs: seq<BlockRecord>)
    requires IsChainValid(h, rs)
    ensures IsChainValid(h, Records(ReconstructChain(h, rs)))
  {
    var ts := Records(ReconstructChain(h, rs));
    SameLinkageSameValidity(h, rs, ts);
  }
}
