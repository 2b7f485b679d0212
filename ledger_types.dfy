/** Values exchanged by the ledger-chain replay engine: ledger headers as they
    come out of the history archive, transaction-history records, the data
    handed to the ledger manager when a ledger is closed, and the faults the
    engine can raise. */
module LedgerTypes {

  /** The source's `uint32_t`: ledger sequence numbers and checkpoint ids. */
  newtype uint32 = x: int | 0 <= x < 0x1_0000_0000

  const UINT32_MAX: uint32 := 0xFFFF_FFFF

  /** Unsigned 32-bit truncation of a natural number. */
  function Wrap(x: nat): (r: uint32)
    ensures x < 0x1_0000_0000 ==> r as int == x
  {
    (x % 0x1_0000_0000) as uint32
  }

  /** `x + 1` evaluated in unsigned 32-bit arithmetic, as C++ does for `uint32_t`. */
  function Inc(x: uint32): (r: uint32)
    ensures x < UINT32_MAX ==> r as int == x as int + 1
    ensures x == UINT32_MAX ==> r == 0
  {
    Wrap(x as int + 1)
  }

  datatype Option<+T> = None | Some(value: T)

  /** A 256-bit hash; the engine only ever compares hashes for equality. */
  type Hash = seq<bv8>

  const ZeroHash: Hash := seq(32, _ => 0 as bv8)

  /** A serialized transaction envelope; its contents are opaque here. */
  type TransactionEnvelope = seq<bv8>

  /** The XDR `TransactionSet`: the hash of the ledger it builds on and its
      transactions. */
  datatype TxSet = TxSet(previousLedgerHash: Hash, txs: seq<TransactionEnvelope>)

  /** The empty transaction set keyed to a ledger hash, used for ledgers whose
      transaction set was never written to the archive. */
  function EmptyTxSet(lclHash: Hash): TxSet
  {
    TxSet(lclHash, [])
  }

  /** The consensus value a ledger closed with; `payload` stands for the close
      time and upgrades, which the engine passes on without looking at them. */
  datatype StellarValue = StellarValue(txSetHash: Hash, payload: seq<bv8>)

  /** The fields of a `LedgerHeader` that the replay engine reads. */
  datatype LedgerHeader = LedgerHeader(
    ledgerSeq: uint32,
    previousLedgerHash: Hash,
    scpValue: StellarValue)

  /** `LedgerHeaderHistoryEntry`: a header together with its own hash. The ledger
      manager's last closed ledger (LCL) has this shape too. */
  datatype HeaderEntry = HeaderEntry(hash: Hash, header: LedgerHeader)

  /** `TransactionHistoryEntry`: the transaction set of one ledger. */
  datatype TxEntry = TxEntry(ledgerSeq: uint32, txSet: TxSet)

  /** A default-constructed `TransactionHistoryEntry`: sequence 0, empty set. */
  const DefaultTxEntry: TxEntry := TxEntry(0, TxSet(ZeroHash, []))

  /** `LedgerCloseData`: what the ledger manager is asked to close. */
  datatype LedgerCloseData = LedgerCloseData(ledgerSeq: uint32, txSet: TxSet, value: StellarValue)

  /** The diagnosis carried by a `std::runtime_error` raised during replay. */
  datatype Reason =
    | PredecessorHashMismatch   // one before the LCL, hash is not the LCL's previous hash
    | LclHashMismatch           // at the LCL, hash is not the LCL's hash
    | Overshot                  // the header is more than one ahead of the LCL
    | PreviousHashMismatch      // next ledger, its previous hash is not the LCL's hash
    | TxSetHashMismatch         // the resolved transaction set does not hash to the header's
    | ResultHashMismatch        // after closing, the new LCL's hash is not the header's
    | Other(message: string)    // any other runtime error, e.g. from the ledger manager

  /** The exceptions the engine distinguishes when it catches them. */
  datatype Fault =
    | InvariantDoesNotHold
    | FileSystemFault
    | RuntimeError(reason: Reason)
}
