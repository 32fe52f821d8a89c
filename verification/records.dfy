/** The transaction record the program fetches, stores and totals (the Go `Resource` struct). */
module Records {
  import opened Wrappers

  /**
   * One cross-chain transfer. `mintHash`, `minter` and `details` are `*string` in Go
   * and may be absent; `amount` is a decimal string in base units; the timestamps are
   * opaque text that is only passed along.
   */
  datatype Resource = Resource(
    id: string,
    nonce: int,
    txnType: string,
    burnHash: string,
    mintHash: Option<string>,
    transferHash: string,
    from: string,
    destination: string,
    minter: Option<string>,
    fromNetwork: string,
    destinationNetwork: string,
    amount: string,
    denom: string,
    status: string,
    timestamp: string,
    createdAt: string,
    details: Option<string>,
    destinationTimestamp: string)
}
