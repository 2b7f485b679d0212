/** Where a replayed header stands relative to the last closed ledger (LCL). */
module Classification {
  import opened LedgerTypes

  datatype Position =
    | Stale          // more than one ledger before the LCL: skipped unchecked
    | OneBeforeLcl   // the LCL's predecessor: its hash must be the LCL's previous hash
    | AtLcl          // the LCL itself: its hash must be the LCL's hash
    | NextLedger     // the ledger after the LCL: applied
    | Overshoot      // further ahead: the replay cannot bridge the gap

  /** The five-way test the replay step runs on a header's sequence number,
      evaluated in the source's order and with its `uint32_t` additions. Below
      the largest sequence number the five cases are the five natural,
      mutually exclusive and exhaustive conditions; a header at the largest
      sequence number wraps `ledgerSeq + 1` to zero and so is taken for a stale
      ledger (or, against an LCL of zero, for its predecessor). */
  function Classify(ledgerSeq: uint32, lclSeq: uint32): (p: Position)
    ensures ledgerSeq < UINT32_MAX ==>
      && (p == Stale <==> ledgerSeq as int + 1 < lclSeq as int)
      && (p == OneBeforeLcl <==> ledgerSeq as int + 1 == lclSeq as int)
      && (p == AtLcl <==> ledgerSeq == lclSeq)
      && (p == NextLedger <==> ledgerSeq as int == lclSeq as int + 1)
      && (p == Overshoot <==> ledgerSeq as int > lclSeq as int + 1)
    ensures ledgerSeq == UINT32_MAX ==> p == if lclSeq == 0 then OneBeforeLcl else Stale
    // the transaction-set resolver targets LCL + 1; in the next-ledger case
    // that target is the header's own sequence
    ensures p == NextLedger ==> ledgerSeq == Inc(lclSeq)
    // so that target never wraps to 0, which the default buffer entry would match
    ensures p == NextLedger ==> lclSeq < UINT32_MAX
  {
    if Inc(ledgerSeq) < lclSeq then Stale
    else if Inc(ledgerSeq) == lclSeq then OneBeforeLcl
    else if ledgerSeq == lclSeq then AtLcl
    else if ledgerSeq != Inc(lclSeq) then Overshoot
    else NextLedger
  }
}
