/**
  Transactions of the supply-chain ledger.

  A transaction is a JSON object (a Python dict) whose keys the ledger does
  not restrict: `tx_id`, `type`, `product_id`, `from`, `to`, `metadata` and
  `timestamp` are conventional, and any other key is carried along untouched.
 */
module Transactions {
  import opened Wrappers

  /** A JSON value. Integers and floats are kept apart, as Python keeps them apart. */
  datatype Json =
    | JNull
    | JBool(b: bool)
    | JInt(i: int)
    | JFloat(r: real)
    | JStr(s: string)
    | JArr(items: seq<Json>)
    | JObj(fields: map<string, Json>)

  /** Python's truthiness of a JSON value (`if miner_id:`, `x or 0`). */
  predicate Truthy(j: Json) {
    match j
    case JNull => false
    case JBool(b) => b
    case JInt(i) => i != 0
    case JFloat(r) => r != 0.0
    case JStr(s) => s != ""
    case JArr(items) => items != []
    case JObj(fields) => fields != map[]
  }

  type Tx = map<string, Json>

  /** `tx.get(key)`: an absent key reads as None. */
  function Get(tx: Tx, key: string): Option<Json> {
    if key in tx then Some(tx[key]) else None
  }

  /**
    The record that `new_transaction` stores: a copy of the submitted one in
    which `tx_id` is filled with a fresh identifier and `timestamp` with the
    current time, each only when the caller left it out.
   */
  function Stamp(tx: Tx, freshId: string, now: real): (r: Tx)
    ensures r.Keys == tx.Keys + {"tx_id", "timestamp"}
    ensures forall k :: k in tx ==> r[k] == tx[k]
    ensures "tx_id" !in tx ==> r["tx_id"] == JStr(freshId)
    ensures "timestamp" !in tx ==> r["timestamp"] == JFloat(now)
  {
    var withId := if "tx_id" in tx then tx else tx["tx_id" := JStr(freshId)];
    if "timestamp" in withId then withId else withId["timestamp" := JFloat(now)]
  }

  /** Stamping a stored record again changes nothing: caller-supplied fields always win. */
  lemma StampIdempotent(tx: Tx, freshId: string, now: real, otherId: string, later: real)
    ensures Stamp(Stamp(tx, freshId, now), otherId, later) == Stamp(tx, freshId, now)
  {
  }

  /** The transaction `mine` leaves in the pool to credit the miner of block `blockIndex`. */
  function RewardTx(minerId: Json, rewardId: string, blockIndex: int, now: real): (tx: Tx)
    ensures Get(tx, "type") == Some(JStr("reward")) && Get(tx, "to") == Some(minerId)
    ensures Get(tx, "product_id") == Some(JNull) && Get(tx, "from") == Some(JNull)
    ensures Get(tx, "tx_id") == Some(JStr(rewardId)) && Get(tx, "timestamp") == Some(JFloat(now))
    ensures Get(tx, "metadata") == Some(JObj(map["reward" := JStr("mined_block"), "block_index" := JInt(blockIndex)]))
    ensures tx.Keys == {"tx_id", "type", "product_id", "from", "to", "metadata", "timestamp"}
  {
    map[
      "tx_id" := JStr(rewardId),
      "type" := JStr("reward"),
      "product_id" := JNull,
      "from" := JNull,
      "to" := minerId,
      "metadata" := JObj(map["reward" := JStr("mined_block"), "block_index" := JInt(blockIndex)]),
      "timestamp" := JFloat(now)
    ]
  }
}
