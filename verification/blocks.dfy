/**
  Blocks, their digest, the proof-of-work search and the block record that
  is persisted and exchanged between nodes.

  The digest (`compute_hash`, a SHA-256 hex digest of the canonical JSON of
  the block's fields) is the parameter `h`: any deterministic function of the
  five hashed fields whose result has the length of a SHA-256 hex digest.
 */
module Blocks {
  import opened Wrappers
  import opened Transactions

  /** The five fields that `compute_hash` covers. */
  datatype Header = Header(
    index: int,
    timestamp: real,
    transactions: seq<Tx>,
    previousHash: Option<string>,
    nonce: int)

  /** A block: its header and the `hash` attribute, None while unset or null. */
  datatype Block = Block(header: Header, hash: Option<string>)

  /** Length of a SHA-256 hex digest. */
  const DIGEST_LENGTH: nat := 64

  /** Number of leading '0' characters a block digest must have. */
  const DIFFICULTY: nat := 3

  function Zeros(n: nat): string {
    seq(n, _ => '0')
  }

  type HashFn = f: Header -> string | forall hd :: |f(hd)| == DIGEST_LENGTH
    witness (hd: Header) => Zeros(DIGEST_LENGTH)

  function WithNonce(hd: Header, nonce: int): Header {
    hd.(nonce := nonce)
  }

  /** `digest.startswith('0' * DIFFICULTY)` */
  predicate MeetsDifficulty(digest: string) {
    |digest| >= DIFFICULTY && digest[..DIFFICULTY] == Zeros(DIFFICULTY)
  }

  /**
    `is_valid_proof`: the claimed digest starts with DIFFICULTY zeros and is the
    digest of the block. So a block has at most one valid proof, its own digest.
   */
  function IsValidProof(h: HashFn, hd: Header, proof: string): (ok: bool)
    ensures ok <==> proof == h(hd) && MeetsDifficulty(h(hd))
    ensures ok ==> proof != ""
  {
    MeetsDifficulty(proof) && proof == h(hd)
  }

  /**
    `proof_of_work`: starting from nonce 0, try successive nonces until the
    digest meets the difficulty. The search is unbounded in the source; here
    `solution` is a nonce known to succeed, which bounds it.
   */
  method ProofOfWork(h: HashFn, block: Header, ghost solution: nat) returns (solved: Header, digest: string)
    requires MeetsDifficulty(h(WithNonce(block, solution)))
    ensures solved == WithNonce(block, solved.nonce)
    ensures 0 <= solved.nonce <= solution
    ensures digest == h(solved) && IsValidProof(h, solved, digest)
    ensures forall n :: 0 <= n < solved.nonce ==> !MeetsDifficulty(h(WithNonce(block, n)))
  {
    solved := WithNonce(block, 0);
    digest := h(solved);
    while !MeetsDifficulty(digest)
      invariant 0 <= solved.nonce <= solution
      invariant solved == WithNonce(block, solved.nonce)
      invariant digest == h(solved)
      invariant forall n :: 0 <= n < solved.nonce ==> !MeetsDifficulty(h(WithNonce(block, n)))
      decreases solution - solved.nonce
    {
      solved := WithNonce(block, solved.nonce + 1);
      digest := h(solved);
    }
  }

  /** The genesis block a fresh ledger starts with. */
  function Genesis(h: HashFn, now: real): (g: Block)
    ensures g.header.index == 0 && g.header.previousHash == Some("0") && g.header.nonce == 0
    ensures g.hash == Some(h(g.header)) && |g.hash.value| == DIGEST_LENGTH
  {
    var hd := Header(0, now, [map["genesis" := JBool(true)]], Some("0"), 0);
    Block(hd, Some(h(hd)))
  }

  /**
    A sealed block carries a non-empty hash: the one its successor links to.
    Every block the ledger holds is sealed.
   */
  predicate Sealed(b: Block) {
    b.hash.Some? && b.hash.value != ""
  }

  // ---------------------------------------------------------------------
  // Block records: the dict form used by persistence and by peers
  // ---------------------------------------------------------------------

  /** The `hash` entry of a block record: absent, null, or a string. */
  datatype StoredHash = Missing | Null | Stated(value: string)

  /** A block dict; `nonce` is None when the key is absent. */
  datatype BlockRecord = BlockRecord(
    index: int,
    timestamp: real,
    transactions: seq<Tx>,
    previousHash: Option<string>,
    nonce: Option<int>,
    hash: StoredHash)

  /** `_block_to_dict` */
  function ToRecord(b: Block): (r: BlockRecord)
    ensures HeaderOf(r) == b.header
    ensures r.nonce == Some(b.header.nonce)
    ensures b.hash.Some? ==> r.hash == Stated(b.hash.value)
    ensures b.hash.None? ==> r.hash == Null
  {
    BlockRecord(
      b.header.index, b.header.timestamp, b.header.transactions, b.header.previousHash,
      Some(b.header.nonce),
      match b.hash
      case Some(s) => Stated(s)
      case None => Null)
  }

  /** The block a record describes, with a missing nonce read as 0. */
  function HeaderOf(r: BlockRecord): Header {
    Header(r.index, r.timestamp, r.transactions, r.previousHash,
           match r.nonce case Some(n) => n case None => 0)
  }

  /**
    The hash that chain validation attributes to a record: the stated hash
    when it is a non-empty string, otherwise the recomputed digest.
   */
  function EffectiveHash(h: HashFn, r: BlockRecord): (d: string)
    ensures d != ""
    ensures r.hash.Stated? && r.hash.value != "" ==> d == r.hash.value
    ensures !(r.hash.Stated? && r.hash.value != "") ==> d == h(HeaderOf(r))
  {
    match r.hash
    case Stated(s) => if s != "" then s else h(HeaderOf(r))
    case _ => h(HeaderOf(r))
  }

  /**
    Rebuild a block from its record, sealing it with the hash validation
    attributes to the record (see the Findings section of the README for
    how this departs from the source).
   */
  function Reconstruct(h: HashFn, r: BlockRecord): (b: Block)
    ensures b.header == HeaderOf(r) && Sealed(b)
    ensures ToRecord(b).hash == Stated(EffectiveHash(h, r))
  {
    Block(HeaderOf(r), Some(EffectiveHash(h, r)))
  }

  function Records(chain: seq<Block>): (rs: seq<BlockRecord>)
    ensures |rs| == |chain|
    ensures forall i :: 0 <= i < |chain| ==> rs[i] == ToRecord(chain[i])
  {
    seq(|chain|, i requires 0 <= i < |chain| => ToRecord(chain[i]))
  }

  function ReconstructChain(h: HashFn, rs: seq<BlockRecord>): (chain: seq<Block>)
    ensures |chain| == |rs|
    ensures forall i :: 0 <= i < |rs| ==> chain[i] == Reconstruct(h, rs[i])
  {
    seq(|rs|, i requires 0 <= i < |rs| => Reconstruct(h, rs[i]))
  }

  /** A record as `_block_to_dict` writes it for a sealed block. */
  predicate Complete(r: BlockRecord) {
    r.nonce.Some? && r.hash.Stated? && r.hash.value != ""
  }

  /** Saving a sealed block and reading it back gives the same block. */
  lemma BlockRoundTrip(h: HashFn, b: Block)
    requires Sealed(b)
    ensures Complete(ToRecord(b))
    ensures Reconstruct(h, ToRecord(b)) == b
  {
  }

  /** Reading a complete record and saving it again gives the same record. */
  lemma RecordRoundTrip(h: HashFn, r: BlockRecord)
    requires Complete(r)
    ensures ToRecord(Reconstruct(h, r)) == r
  {
  }

  /** Persistence round trip of a whole chain of sealed blocks. */
  lemma ChainRoundTrip(h: HashFn, chain: seq<Block>)
    requires forall i :: 0 <= i < |chain| ==> Sealed(chain[i])
    ensures ReconstructChain(h, Records(chain)) == chain
  {
  }

  /** A chain of complete records survives reconstruction and export unchanged. */
  lemma RecordsRoundTrip(h: HashFn, rs: seq<BlockRecord>)
    requires forall i :: 0 <= i < |rs| ==> Complete(rs[i])
    ensures Records(ReconstructChain(h, rs)) == rs
  {
  }
}
