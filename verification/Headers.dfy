/** Block headers, receipts, and the block parameters kept in the state (ethereum/block.py, ethereum/state.py). */
module Headers {
  import opened ByteStrings
  import opened Words
  import opened World

  /** Hashes are only compared. */
  type Hash = nat

  datatype Header = Header(
    prevhash: Hash, number: int, timestamp: int, difficulty: int, gasUsed: int, gasLimit: int, coinbase: Address,
    unclesHash: Hash, stateRoot: Hash, txRoot: Hash, receiptsRoot: Hash, bloom: nat, seal: nat)

  /** Before Metropolis a receipt carries the state root, afterwards the status. */
  datatype Receipt = Receipt(stateRoot: Option<Hash>, success: bool, gasUsed: int, bloom: nat, logs: seq<Log>)

  /** The block parameters of a state; logs, self-destructs and refunds are kept beside them. */
  datatype Params = Params(
    txindex: nat, gasUsed: int, gasLimit: int, blockNumber: int, coinbase: Address, difficulty: int, timestamp: int,
    receipts: seq<Receipt>, bloom: nat, recentUncles: map<int, seq<Hash>>, prevHeaders: seq<Header>)

  /** Equal but for what the journal can set back: the receipts, the bloom filter and the transaction index. */
  predicate SameButJournaled(p: Params, q: Params) {
    p == q.(receipts := p.receipts, bloom := p.bloom, txindex := p.txindex)
  }

  const NO_PARAMS := Params(0, 0, 3141592, 0, 0, 1, 0, [], 0, map[], [])
}
