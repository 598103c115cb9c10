/**
  The ledger (`Blockchain`): the chain of sealed blocks and the pool of
  pending transactions, with submission, guarded append, mining, history
  queries and fork resolution. Persistence, the clock and the identifier
  source are outside: their results arrive as parameters.
 */
module LedgerState {
  import opened Wrappers
  import opened Transactions
  import opened Blocks
  import opened Validation
  import opened History

  /**
    The inner loop of the history scans: append to `history` each transaction
    of `txs` the query selects, tagged with `blockIndex`.
   */
  method CollectFrom(history: seq<Entry>, blockIndex: Option<int>, txs: seq<Tx>, q: Query)
    returns (r: seq<Entry>)
    ensures r == history + Filter(Tag(blockIndex, txs), q)
  {
    r := history;
    var j := 0;
    while j < |txs|
      invariant 0 <= j <= |txs|
      invariant r == history + Filter(Tag(blockIndex, txs[..j]), q)
    {
      assert Tag(blockIndex, txs[..j + 1])[..j] == Tag(blockIndex, txs[..j]);
      if Matches(q, txs[j]) {
        r := r + [Entry(blockIndex, txs[j])];
      }
      j := j + 1;
    }
    assert txs[..j] == txs;
  }

  /** The named outcomes of fork resolution. */
  datatype Resolution = TooShort | Invalid | Replaced

  class Ledger {
    const h: HashFn
    var chain: seq<Block>
    var pending: seq<Tx>

    /** The chain is never empty and each of its blocks carries a non-empty hash. */
    ghost predicate Valid()
      reads this
    {
      |chain| > 0 && forall i :: 0 <= i < |chain| ==> Sealed(chain[i])
    }

    /** The chain, exported as records, passes `is_chain_valid`. */
    ghost predicate ChainValid()
      reads this
    {
      IsChainValid(h, Records(chain))
    }

    function Head(): Block
      reads this
      requires |chain| > 0
    {
      chain[|chain| - 1]
    }

    /** The block `mine` would build at time `now`, at the given nonce. */
    function NextHeader(now: real, nonce: int): Header
      reads this
      requires |chain| > 0
    {
      Header(Head().header.index + 1, now, pending, Head().hash, nonce)
    }

    /**
      Start from the persisted state (`storedChain`, `storedPending`, both
      empty when nothing was saved); with no stored blocks, seal a genesis block.
     */
    constructor (h: HashFn, storedChain: seq<BlockRecord>, storedPending: seq<Tx>, now: real)
      ensures Valid() && this.h == h
      ensures storedChain != [] ==> chain == ReconstructChain(h, storedChain)
      ensures storedChain == [] ==> chain == [Genesis(h, now)] && ChainValid()
      ensures pending == storedPending
    {
      this.h := h;
      pending := storedPending;
      if storedChain == [] {
        chain := [Genesis(h, now)];
        assert Records([Genesis(h, now)])[1..] == [];
      } else {
        chain := ReconstructChain(h, storedChain);
      }
    }

    /** `new_transaction`: store the stamped copy at the end of the pool. */
    method NewTransaction(tx: Tx, freshId: string, now: real) returns (stored: Tx)
      requires Valid()
      modifies this
      ensures Valid()
      ensures stored == Stamp(tx, freshId, now)
      ensures pending == old(pending) + [stored]
      ensures chain == old(chain)
    {
      stored := Stamp(tx, freshId, now);
      pending := pending + [stored];
    }

    /**
      `add_block`: append `block` sealed with `proof` when it links to the head
      and the proof is valid; otherwise change nothing.
     */
    method AddBlock(block: Header, proof: string) returns (added: bool)
      requires Valid()
      modifies this
      ensures Valid()
      ensures added <==> block.previousHash == old(Head()).hash && IsValidProof(h, block, proof)
      ensures added ==> chain == old(chain) + [Block(block, Some(proof))]
      ensures !added ==> chain == old(chain)
      ensures pending == old(pending)
      ensures old(ChainValid()) ==> ChainValid()
    {
      if Head().hash != block.previousHash {
        return false;
      }
      if !IsValidProof(h, block, proof) {
        return false;
      }
      if ChainValid() {
        AppendKeepsChainValid(h, chain, block, proof);
      }
      chain := chain + [Block(block, Some(proof))];
      added := true;
    }

    /**
      `mine`: with an empty pool, nothing happens. Otherwise the pool becomes
      the transactions of a new block on top of the head, sealed by the
      proof-of-work search, and the pool is replaced by a reward for a truthy
      `minerId` or emptied. `solution` is a nonce that meets the difficulty,
      which bounds the search.
     */
    method Mine(minerId: Json, now: real, rewardId: string, rewardTime: real, ghost solution: nat)
      returns (mined: Option<Block>)
      requires Valid()
      requires pending != [] ==> MeetsDifficulty(h(NextHeader(now, solution)))
      modifies this
      ensures Valid()
      ensures old(pending) == [] ==> mined == None && chain == old(chain) && pending == old(pending)
      ensures old(pending) != [] ==>
        && mined.Some?
        && chain == old(chain) + [mined.value]
        && mined.value.header == WithNonce(old(NextHeader(now, 0)), mined.value.header.nonce)
        && mined.value.hash == Some(h(mined.value.header))
        && IsValidProof(h, mined.value.header, mined.value.hash.value)
        && pending == (if Truthy(minerId)
                       then [RewardTx(minerId, rewardId, mined.value.header.index, rewardTime)]
                       else [])
      ensures old(ChainValid()) ==> ChainValid()
    {
      if pending == [] {
        return None;
      }
      var last := chain[|chain| - 1];
      var candidate := Header(last.header.index + 1, now, pending, last.hash, 0);
      assert WithNonce(candidate, solution) == NextHeader(now, solution);
      var solved, proof := ProofOfWork(h, candidate, solution);
      var added := AddBlock(solved, proof);
      assert added;
      if Truthy(minerId) {
        pending := [RewardTx(minerId, rewardId, solved.index, rewardTime)];
      } else {
        pending := [];
      }
      mined := Some(Block(solved, Some(proof)));
    }

    /**
      Fork resolution: a candidate no longer than the local chain is refused
      without validation (ties keep the local chain); a longer valid candidate
      replaces the chain; a longer invalid one is refused. The pool is kept.
     */
    method ResolveConflict(candidate: seq<BlockRecord>) returns (outcome: Resolution)
      requires Valid()
      modifies this
      ensures Valid()
      ensures |candidate| <= |old(chain)| ==> outcome == TooShort && chain == old(chain)
      ensures |candidate| > |old(chain)| && IsChainValid(h, candidate) ==>
        outcome == Replaced && chain == ReconstructChain(h, candidate) && ChainValid()
      ensures |candidate| > |old(chain)| && !IsChainValid(h, candidate) ==>
        outcome == Invalid && chain == old(chain)
      ensures outcome == Replaced && (forall i :: 0 <= i < |candidate| ==> Complete(candidate[i])) ==>
        Records(chain) == candidate
      ensures pending == old(pending)
    {
      if |candidate| <= |chain| {
        return TooShort;
      }
      if IsChainValid(h, candidate) {
        chain := ReconstructChain(h, candidate);
        ReconstructKeepsChainValid(h, candidate);
        if forall i :: 0 <= i < |candidate| ==> Complete(candidate[i]) {
          RecordsRoundTrip(h, candidate);
        }
        return Replaced;
      }
      return Invalid;
    }

    /** Scan the chain, then the pool, collecting the entries the query selects. */
    method Collect(q: Query) returns (history: seq<Entry>)
      ensures history == Filter(Tagged(chain, pending), q)
    {
      history := [];
      var i := 0;
      while i < |chain|
        invariant 0 <= i <= |chain|
        invariant history == Filter(ChainEntries(chain[..i]), q)
      {
        var block := chain[i];
        FilterAppend(ChainEntries(chain[..i]), Tag(Some(block.header.index), block.header.transactions), q);
        history := CollectFrom(history, Some(block.header.index), block.header.transactions, q);
        assert chain[..i + 1][..i] == chain[..i];
        i := i + 1;
      }
      assert chain[..i] == chain;
      FilterAppend(ChainEntries(chain), Tag(None, pending), q);
      history := CollectFrom(history, None, pending, q);
    }

    /** `get_product_history`: the product's entries, stably sorted by timestamp. */
    method ProductHistory(productId: string) returns (history: seq<Entry>)
      ensures history == SortByTime(Filter(Tagged(chain, pending), ByProduct(productId)))
      ensures SortedByTime(history)
      ensures forall e :: e in history <==> e in Filter(Tagged(chain, pending), ByProduct(productId))
    {
      var matching := Collect(ByProduct(productId));
      history := SortByTime(matching);
      forall e
        ensures e in history <==> e in matching
      {
        assert e in history <==> e in multiset(history);
      }
    }

    /** `get_participant_history`: the participant's entries, in scan order. */
    method ParticipantHistory(participantId: string) returns (history: seq<Entry>)
      ensures history == Filter(Tagged(chain, pending), ByParticipant(participantId))
    {
      history := Collect(ByParticipant(participantId));
    }
  }
}
