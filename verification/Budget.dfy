/** Resource policy of a RakNet peer and the errors that stop it. */
module Budget {
  import opened Bytes

  datatype Budgets = Budgets(
    peerCommandQueue: usize,
    applicationQueue: usize,
    maxDatagramBytes: usize,
    maxPayloadBytes: usize,
    maxReassemblyBytes: usize,
    maxReassemblyParts: usize,
    maxOrderedHoldback: usize,
    maxUnacked: usize)

  datatype RakNetError =
    | Wire
    | BudgetExceeded(requested: nat, limit: usize)
    | Closed
    | PeerTimeout
    | RetransmitExhausted(sequence: u24, attempts: u16)

  /** How many recent indexes a duplicate window remembers. */
  function WindowLimit(b: Budgets): (n: usize)
    ensures 1 <= n
  {
    Max(1, Min(2 * b.maxUnacked, USIZE_MAX))
  }
}
