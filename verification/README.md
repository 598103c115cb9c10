# Supply-chain ledger: a Dafny model

This project models the ledger state machine of a small proof-of-work
blockchain that records supply-chain events: products are created, shipped,
received and transferred. The ledger holds an ordered chain of sealed
blocks and an ordered pool of pending transactions. It accepts
transactions, mines the pool into a new block by a proof-of-work search,
appends a block only when it links to the head and carries a valid proof,
validates whole chains, answers product and participant history queries,
and resolves forks by the rule "a strictly longer valid chain wins; ties
keep the local chain".

Modules:

- `Wrappers`: `Option`.
- `Transactions`: transactions as JSON objects (`map<string, Json>`); the
  stamping done by `new_transaction`; the miner's reward transaction.
- `Blocks`: headers (the five hashed fields) and blocks. The digest
  `compute_hash` is a parameter `h: HashFn`, which is any deterministic
  function of the five fields whose result has the 64-character length of a
  SHA-256 hex digest. The module also holds the difficulty test,
  `is_valid_proof`, the proof-of-work search, the genesis block, and the
  block record (`_block_to_dict` and its reconstruction) with its round trips.
- `Validation`: `is_chain_valid` as a recursive function, with its
  characterisation and the lemmas that appending and adopting keep chains
  valid.
- `History`: the scan order, the query filter and the stable sort by
  timestamp.
- `LedgerState`: the class `Ledger` with fields `chain` and `pending`. Its
  methods are submission, guarded append, mining, fork resolution and the
  two history scans, written as loops.
- `Findings`: reconstruction as the source writes it, and the defect it
  causes.

## Model

| member | source | states |
|---|---|---|
| `Transactions.Stamp` | blockchain_supply_chain.py:77-80 | The stored transaction has every key of the submitted one, with the caller's values unchanged. It also has `tx_id` and `timestamp`, which get the fresh identifier and the current time only when the caller left them out. |
| `Transactions.StampIdempotent` | blockchain_supply_chain.py:78-80 | Stamping an already stored record again changes nothing: caller-supplied `tx_id` and `timestamp` always win. |
| `Transactions.RewardTx` | blockchain_supply_chain.py:118-126 | The reward record has exactly the seven keys tx_id, type, product_id, from, to, metadata and timestamp, with type "reward", `to` the miner id, null `product_id` and `from`, the fresh id, the reward time, and metadata naming the mined block's index. |
| `Blocks.IsValidProof` | blockchain_supply_chain.py:138-139 | A proof is valid exactly when it equals the block's own digest and that digest starts with DIFFICULTY '0's. So a block has at most one valid proof, and that proof is non-empty. |
| `Blocks.ProofOfWork` | blockchain_supply_chain.py:96-102 | It returns the block with only its nonce changed, and that nonce is the first one from 0 upward whose digest meets the difficulty. The returned hash is that block's digest and passes `is_valid_proof`. |
| `Blocks.Genesis` | blockchain_supply_chain.py:59-63 | The genesis block has index 0, previous hash "0" and nonce 0. Its hash is the digest of its own fields. |
| `Blocks.ToRecord` | blockchain_supply_chain.py:222-230 | The record carries the block's five hashed fields and its nonce. Its `hash` is the block's hash, or null when the block has none. |
| `Blocks.EffectiveHash` | blockchain_supply_chain.py:151 | The hash that validation gives a record is its stated hash when that is a non-empty string. Otherwise it is the recomputed digest. It is never empty. |
| `Blocks.Reconstruct` | blockchain_supply_chain.py:214-219 | The rebuilt block has the record's fields, with a missing nonce read as 0. It is sealed with the hash validation gives the record (corrected, see Findings). |
| `Blocks.BlockRoundTrip` | blockchain_supply_chain.py:199-219 | Saving a sealed block and loading it back gives the same block. |
| `Blocks.RecordRoundTrip` | blockchain_supply_chain.py:214-230 | Loading a complete record (nonce and non-empty hash present) and saving it again gives the same record. |
| `Blocks.ChainRoundTrip` | blockchain_supply_chain.py:199-220 | Saving and reloading a chain of sealed blocks gives back the same chain. |
| `Blocks.RecordsRoundTrip` | blockchain_supply_chain.py:317-322 | After an adopted chain of complete records is exported again, the export equals the candidate. |
| `Validation.IsChainValid` | blockchain_supply_chain.py:141-166 | An empty chain is invalid and a lone genesis record is valid; its full characterisation is the contract of `Validation.ChainValidIff`. |
| `Validation.ChainValidIff` | blockchain_supply_chain.py:141-166 | A chain is valid exactly when it is non-empty and every record after the first meets two conditions. Its `previous_hash` equals the hash validation gives its predecessor, and it passes `is_valid_proof`. The first record's hash is trusted. |
| `Validation.ValidChainProofs` | blockchain_supply_chain.py:158-163 | In a valid chain, every record after the first carries its own digest. That digest meets the difficulty, and the record links to its predecessor. |
| `Validation.SealedChainLinkage` | blockchain_supply_chain.py:141-166 | In a valid chain of sealed blocks, each block's `previous_hash` is its predecessor's `hash`. Each later hash is a valid proof for its block. |
| `Validation.AppendKeepsChainValid` | blockchain_supply_chain.py:85-94 | Appending a block that passes `add_block`'s two checks keeps a valid chain valid. |
| `Validation.SameLinkageSameValidity` | blockchain_supply_chain.py:148-165 | Validity depends only on each record's hashed fields and on the hash validation gives it. |
| `Validation.ReconstructKeepsChainValid` | blockchain_supply_chain.py:315-322 | A valid candidate is still valid once it is reconstructed and exported as the ledger's own chain. |
| `History.HistoryMembers` | blockchain_supply_chain.py:168-197 | A history contains exactly the matching transactions, each as many times as the ledger holds it. Those of a block are tagged with that block's index, and pending ones are tagged None. Entries from the chain come before pending ones. |
| `History.SortByTime` | blockchain_supply_chain.py:186 | The product history is sorted ascending by timestamp, where a missing or falsy timestamp counts as 0. It is a permutation of the scan. |
| `History.SortIsStable` | blockchain_supply_chain.py:186 | Entries with equal timestamps keep their scan order. |
| `LedgerState.CollectFrom` | blockchain_supply_chain.py:171-177 | The inner scan appends to the history exactly the selected transactions of one block, or of the pool, in order. |
| `LedgerState.Ledger.Collect` | blockchain_supply_chain.py:169-185 | The scan gives the selected entries of all blocks in chain order, then those of the pool. |
| `LedgerState.Ledger.ProductHistory` | blockchain_supply_chain.py:168-186 | Product history is the stably sorted scan for the product id. It is sorted by timestamp and has exactly the scan's entries. |
| `LedgerState.Ledger.ParticipantHistory` | blockchain_supply_chain.py:188-197 | Participant history is the scan for transactions whose `from` or `to` is the id. It is not re-sorted. |
| `LedgerState.Ledger.constructor` | blockchain_supply_chain.py:53-64 | Stored blocks are reconstructed. With no stored blocks, the chain is a single genesis block and is valid. The pool is the stored pool. The chain is never empty and every block is sealed. |
| `LedgerState.Ledger.NewTransaction` | blockchain_supply_chain.py:66-83 | It appends exactly the stamped copy at the end of the pool, returns it, and leaves the chain unchanged. |
| `LedgerState.Ledger.AddBlock` | blockchain_supply_chain.py:85-94 | It appends exactly when the block's `previous_hash` equals the head's hash and the proof is valid. The appended block is sealed with the proof, and earlier blocks are unchanged. Otherwise the chain is unchanged. The pool is never touched, and chain validity is kept. |
| `LedgerState.Ledger.Mine` | blockchain_supply_chain.py:104-133 | With an empty pool, it returns None and changes nothing. Otherwise it appends and returns a block whose index is the head's index + 1 and whose previous hash is the head's hash. That block holds the old pool at time `now`, its hash is its own valid digest, and only its nonce differs from the candidate. The inner append always succeeds. The pool becomes the single reward for a truthy miner id, or empty. Chain validity is kept. |
| `LedgerState.Ledger.ResolveConflict` | blockchain_supply_chain.py:313-326 | A candidate no longer than the chain is refused as too short, and the chain is unchanged. A longer valid candidate replaces the chain with its reconstruction, which is valid and, for complete records, exports equal to the candidate. A longer invalid candidate is refused as invalid, and the chain is unchanged. The pool is kept. |
| `Findings.ReconstructAsWritten` | blockchain_supply_chain.py:216-217 | As written, reconstruction recomputes a missing hash but keeps a null hash as None. |
| `Findings.NullHashBreaksNextBlock` | blockchain_supply_chain.py:319-320 | As written: a valid candidate whose head record has a null hash is adopted with a head hash of None. The next block then links to None, and the chain stops passing `is_chain_valid`. |
| `Findings.NullHashCandidateExists` | blockchain_supply_chain.py:141-166 | Such a candidate passes validation: a two-block example with a constant digest. |

## Left out

- HTTP routes, request parsing and status codes are not modelled. That includes the 400 answer for a missing or empty candidate in the fork-resolution handler. Only the length/validity/replace rule is modelled.
- SHA-256 and the canonical JSON dump are not modelled. The digest is a parameter whose only assumed property is the 64-character length of a hex digest. Collision resistance is not claimed.
- File I/O (`save_chain`, `load_chain`, `/export`) is not modelled. The constructor receives the records and pool that loading produced, and the save after each change is not modelled.
- `time.time()` and `uuid4()` are parameters (`now`, `freshId`, `rewardId`, `rewardTime`).
- Blocks and transactions are values. The source's blocks are mutable objects whose nonce and hash are set in place, and `mine` returns the very object it appended. The pool snapshot is a shallow copy that shares transaction dicts. This aliasing is not modelled.
- Node registration (`nodes`, `urlparse`), the demo-data thread and the CLI banner are not modelled.
- Concurrency and locking are not modelled: the model is sequential.
- Records with a missing required key (which raises KeyError in the source) are outside the model. So are records with a non-integer nonce or a non-string hash or previous hash.
- Block headers hold `index` as an integer and `timestamp` as a real number, so the JSON spellings `5` and `5.0` are one value here, while the canonical dump that feeds the digest tells them apart. A peer's record that spells an integral timestamp (or index) the other way is not modelled.
- Block records hold their transactions as JSON objects. A peer's record whose transactions are not objects is outside the model: the source validates and adopts it, and both history scans then fail on it.
- LedgerState.Ledger.Mine: requires a ghost nonce `solution` whose digest meets the difficulty. Without one the source's search never ends.
- Blocks.ProofOfWork: requires such a ghost nonce `solution` for the same reason.
- LedgerState.Ledger.Mine: the source's `return None` after a failed `add_block` is not modelled as a branch. Sequentially it cannot happen, and the model proves that the append succeeds.
- History.SortByTime: a non-numeric, non-boolean truthy timestamp (a string, say) is read as 0. The source would compare it with numbers and fail, or sort strings among themselves. A NaN timestamp is not modelled either: every comparison with NaN is false, so the source's `sorted` can return entries out of ascending order (timestamps 2, NaN, 1 stay in that order), while the model's sort is always ascending.
- Floats are real numbers here, so NaN and the infinities, which the source's JSON parser accepts, are not modelled. Nor is the difference between -0.0 and 0.0, which the canonical dump that feeds the digest keeps.
- The model covers only block records with exactly the six keys `index`, `timestamp`, `transactions`, `previous_hash`, `nonce` and `hash`, an integer index and a finite numeric timestamp. It therefore misses two effects. Adopting a peer's record drops any extra keys, so the export then differs from the candidate; the round trips in Blocks.RecordRoundTrip, Blocks.RecordsRoundTrip and LedgerState.Ledger.ResolveConflict hold for six-key records only. And a non-numeric index (a string, null) passes validation, since indices are never checked, after which the next `mine` fails computing `index + 1`.
- After a successful mine the pool is reassigned, not mutated, and the block's transaction list is a shallow copy of the pool. The model reassigns the pool too, but its values cannot show the sharing of transaction dicts.

## Findings

| source | as written | input that shows it | evidently intended | confidence | as-written member | corrected member |
|---|---|---|---|---|---|---|
| blockchain_supply_chain.py:319-320 | An adopted block's hash is `bdict.get('hash', compute_hash())`, so a record with `"hash": null` becomes a block whose hash is None. `is_chain_valid` (line 151) instead recomputes the digest for a null or empty hash. | A longer candidate of two blocks whose second record has `"hash": null` (`NullHashCandidateExists`). It validates and replaces the chain. The next `mine` builds `previous_hash` None, which `add_block` accepts (None == None), and the ledger's chain no longer passes `is_chain_valid`. | An adopted block carries the hash that validation gave its record, so the chain the ledger holds stays valid under further mining. | medium (not executed) | `Findings.NullHashBreaksNextBlock` | `Blocks.Reconstruct` (with `Validation.ReconstructKeepsChainValid` and `LedgerState.Ledger.Mine`'s validity clause) |
