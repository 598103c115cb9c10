/**
  History queries over the ledger: every transaction of a product or of a
  participant, from the sealed blocks in chain order and then the pending pool.
 */
module History {
  import opened Wrappers
  import opened Transactions
  import opened Blocks

  /** Which transactions a history query selects. */
  datatype Query = ByProduct(productId: string) | ByParticipant(participantId: string)

  /** `tx.get("product_id") == product_id`, or `from`/`to` equal to the participant id. */
  predicate Matches(q: Query, tx: Tx) {
    match q
    case ByProduct(p) => Get(tx, "product_id") == Some(JStr(p))
    case ByParticipant(p) => Get(tx, "from") == Some(JStr(p)) || Get(tx, "to") == Some(JStr(p))
  }

  /**
    A history entry: the transaction and the index of the block holding it,
    None while it is still pending.
   */
  datatype Entry = Entry(blockIndex: Option<int>, tx: Tx) {
    /** The `timestamp` that product-history entries repeat from their transaction. */
    function Timestamp(): Option<Json> {
      Get(tx, "timestamp")
    }
  }

  function Tag(blockIndex: Option<int>, txs: seq<Tx>): (es: seq<Entry>)
    ensures |es| == |txs|
    ensures forall i :: 0 <= i < |txs| ==> es[i] == Entry(blockIndex, txs[i])
  {
    seq(|txs|, i requires 0 <= i < |txs| => Entry(blockIndex, txs[i]))
  }

  /** Every sealed transaction, block by block, tagged with its block's index. */
  function ChainEntries(chain: seq<Block>): seq<Entry> {
    if chain == [] then []
    else
      var last := chain[|chain| - 1];
      ChainEntries(chain[..|chain| - 1]) + Tag(Some(last.header.index), last.header.transactions)
  }

  /** Every transaction of the ledger in scan order: the chain, then the pool. */
  function Tagged(chain: seq<Block>, pending: seq<Tx>): seq<Entry> {
    ChainEntries(chain) + Tag(None, pending)
  }

  /** The entries a query keeps, in their original order. */
  function Filter(es: seq<Entry>, q: Query): seq<Entry> {
    if es == [] then []
    else Filter(es[..|es| - 1], q) + (if Matches(q, es[|es| - 1].tx) then [es[|es| - 1]] else [])
  }

  lemma {:induction false} FilterAppend(a: seq<Entry>, b: seq<Entry>, q: Query)
    ensures Filter(a + b, q) == Filter(a, q) + Filter(b, q)
    decreases |b|
  {
    if b == [] {
      assert a + b == a;
    } else {
      var b' := b[..|b| - 1];
      assert (a + b)[..|a + b| - 1] == a + b';
      FilterAppend(a, b', q);
    }
  }

  /** A filtered sequence holds exactly the matching entries of the original. */
  lemma {:induction false} FilterMembers(es: seq<Entry>, q: Query, e: Entry)
    ensures e in Filter(es, q) <==> e in es && Matches(q, e.tx)
  {
    if es != [] {
      var es' := es[..|es| - 1];
      FilterMembers(es', q, e);
      assert es == es' + [es[|es| - 1]];
    }
  }

  /** Each matching entry occurs in the filtered sequence as often as in the original; others never. */
  lemma {:induction false} FilterCount(es: seq<Entry>, q: Query, e: Entry)
    ensures multiset(Filter(es, q))[e] == if Matches(q, e.tx) then multiset(es)[e] else 0
  {
    if es != [] {
      var es' := es[..|es| - 1];
      FilterCount(es', q, e);
      assert es == es' + [es[|es| - 1]];
    }
  }

  lemma {:induction false} ChainEntriesMembers(chain: seq<Block>, e: Entry)
    ensures e in ChainEntries(chain) <==>
      exists i :: 0 <= i < |chain| && e.blockIndex == Some(chain[i].header.index)
                  && e.tx in chain[i].header.transactions
  {
    if chain != [] {
      var chain' := chain[..|chain| - 1];
      var last := chain[|chain| - 1];
      ChainEntriesMembers(chain', e);
      var tagged := Tag(Some(last.header.index), last.header.transactions);
      assert e in tagged <==> e.blockIndex == Some(last.header.index) && e.tx in last.header.transactions;
      if exists i :: 0 <= i < |chain| && e.blockIndex == Some(chain[i].header.index)
                     && e.tx in chain[i].header.transactions {
        var i :| 0 <= i < |chain| && e.blockIndex == Some(chain[i].header.index)
                 && e.tx in chain[i].header.transactions;
        if i < |chain| - 1 {
          assert chain'[i] == chain[i];
        }
      }
    }
  }

  /**
    A history holds exactly the matching transactions of the ledger: those of
    a sealed block tagged with that block's index, those still pending tagged
    None, each as many times as the ledger holds it; and the sealed ones come first.
   */
  lemma HistoryMembers(chain: seq<Block>, pending: seq<Tx>, q: Query, e: Entry)
    ensures e in Filter(Tagged(chain, pending), q) <==>
      Matches(q, e.tx) &&
      ((exists i :: 0 <= i < |chain| && e.blockIndex == Some(chain[i].header.index)
                    && e.tx in chain[i].header.transactions)
       || (e.blockIndex == None && e.tx in pending))
    ensures multiset(Filter(Tagged(chain, pending), q))[e]
      == if Matches(q, e.tx) then multiset(Tagged(chain, pending))[e] else 0
    ensures Filter(Tagged(chain, pending), q) == Filter(ChainEntries(chain), q) + Filter(Tag(None, pending), q)
  {
    FilterMembers(Tagged(chain, pending), q, e);
    FilterCount(Tagged(chain, pending), q, e);
    ChainEntriesMembers(chain, e);
    FilterAppend(ChainEntries(chain), Tag(None, pending), q);
  }

  // ---------------------------------------------------------------------
  // Ordering of product history: `sorted(history, key=lambda x: x["timestamp"] or 0)`
  // ---------------------------------------------------------------------

  /** The sort key: the timestamp, with a missing or falsy one read as 0. */
  function TimeKey(e: Entry): real {
    match e.Timestamp()
    case Some(JInt(i)) => i as real
    case Some(JFloat(r)) => r
    case Some(JBool(b)) => if b then 1.0 else 0.0
    case _ => 0.0
  }

  predicate SortedByTime(es: seq<Entry>) {
    forall i, j :: 0 <= i < j < |es| ==> TimeKey(es[i]) <= TimeKey(es[j])
  }

  /** The entries whose key is `t`, in order. */
  function WithTime(es: seq<Entry>, t: real): seq<Entry> {
    if es == [] then []
    else (if TimeKey(es[0]) == t then [es[0]] else []) + WithTime(es[1..], t)
  }

  /** Insert `e` before the first entry whose key is not below its own. */
  function InsertByTime(e: Entry, es: seq<Entry>): (r: seq<Entry>)
    ensures multiset(r) == multiset(es) + multiset{e}
  {
    if es == [] || TimeKey(e) <= TimeKey(es[0]) then [e] + es
    else
      assert es == [es[0]] + es[1..];
      [es[0]] + InsertByTime(e, es[1..])
  }

  /** Inserting into entries whose keys are at least `k` an entry whose key is at least `k` keeps that bound. */
  lemma {:induction false} InsertKeepsLowerBound(e: Entry, es: seq<Entry>, k: real)
    requires TimeKey(e) >= k
    requires forall i :: 0 <= i < |es| ==> TimeKey(es[i]) >= k
    ensures forall i :: 0 <= i < |InsertByTime(e, es)| ==> TimeKey(InsertByTime(e, es)[i]) >= k
  {
    if es != [] && TimeKey(e) > TimeKey(es[0]) {
      InsertKeepsLowerBound(e, es[1..], k);
      var tail := InsertByTime(e, es[1..]);
      assert InsertByTime(e, es) == [es[0]] + tail;
    }
  }

  lemma {:induction false} InsertKeepsSorted(e: Entry, es: seq<Entry>)
    requires SortedByTime(es)
    ensures SortedByTime(InsertByTime(e, es))
  {
    if es != [] && TimeKey(e) > TimeKey(es[0]) {
      var tail := InsertByTime(e, es[1..]);
      InsertKeepsSorted(e, es[1..]);
      InsertKeepsLowerBound(e, es[1..], TimeKey(es[0]));
      var r := [es[0]] + tail;
      assert InsertByTime(e, es) == r;
      forall i, j | 0 <= i < j < |r|
        ensures TimeKey(r[i]) <= TimeKey(r[j])
      {
        assert r[j] == tail[j - 1];
        if i > 0 {
          assert r[i] == tail[i - 1];
        }
      }
    }
  }

  lemma WithTimeCons(x: Entry, es: seq<Entry>, t: real)
    ensures WithTime([x] + es, t) == (if TimeKey(x) == t then [x] else []) + WithTime(es, t)
  {
    assert ([x] + es)[0] == x && ([x] + es)[1..] == es;
  }

  lemma {:induction false} InsertIsStable(e: Entry, es: seq<Entry>, t: real)
    ensures WithTime(InsertByTime(e, es), t) == (if TimeKey(e) == t then [e] else []) + WithTime(es, t)
  {
    if es == [] || TimeKey(e) <= TimeKey(es[0]) {
      WithTimeCons(e, es, t);
    } else {
      var tail := InsertByTime(e, es[1..]);
      assert InsertByTime(e, es) == [es[0]] + tail;
      WithTimeCons(es[0], tail, t);
      InsertIsStable(e, es[1..], t);
      WithTimeCons(es[0], es[1..], t);
      assert es == [es[0]] + es[1..];
    }
  }

  /**
    Python's `sorted` by timestamp: ascending and a permutation of its input
    (`SortIsStable` adds that it is stable).
   */
  function SortByTime(es: seq<Entry>): (r: seq<Entry>)
    ensures SortedByTime(r)
    ensures multiset(r) == multiset(es)
  {
    if es == [] then []
    else
      assert es == [es[0]] + es[1..];
      InsertKeepsSorted(es[0], SortByTime(es[1..]));
      InsertByTime(es[0], SortByTime(es[1..]))
  }

  /** Entries with equal timestamps keep their scan order. */
  lemma {:induction false} SortIsStable(es: seq<Entry>, t: real)
    ensures WithTime(SortByTime(es), t) == WithTime(es, t)
  {
    if es != [] {
      SortIsStable(es[1..], t);
      InsertIsStable(es[0], SortByTime(es[1..]), t);
    }
  }
}
