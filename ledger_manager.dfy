/** The part of the ledger manager the replay engine talks to: the last closed
    ledger (LCL), which it reads, and `closeLedger`, the one operation that
    changes it. What closing a ledger does (executing the transactions,
    updating the bucket list) is the `transition` the manager is built with. */
module LedgerManagement {
  import opened LedgerTypes

  /** The outcome of closing a ledger: the new LCL, or the exception raised. */
  datatype CloseResult = Closed(lcl: HeaderEntry) | CloseFailed(fault: Fault)

  class LedgerManager {
    /** `getLastClosedLedgerHeader()`. */
    var lcl: HeaderEntry
    /** Every `closeLedger` request received, in order. */
    var closed: seq<LedgerCloseData>
    /** What closing a ledger does to the LCL; opaque to the replay engine. */
    const transition: (HeaderEntry, LedgerCloseData) -> CloseResult

    constructor (lcl: HeaderEntry, transition: (HeaderEntry, LedgerCloseData) -> CloseResult)
      ensures this.lcl == lcl && this.transition == transition && closed == []
    {
      this.lcl := lcl;
      this.transition := transition;
      closed := [];
    }

    /** `getLastClosedLedgerNum()`. */
    function LastClosedLedgerNum(): uint32
      reads this
    {
      lcl.header.ledgerSeq
    }

    /** `closeLedger`: records the request and either moves the LCL to the
        closed ledger or fails, leaving the LCL as it was. */
    method CloseLedger(data: LedgerCloseData) returns (fault: Option<Fault>)
      modifies this`lcl, this`closed
      ensures closed == old(closed) + [data]
      ensures match transition(old(lcl), data)
        case Closed(next) => fault == None && lcl == next
        case CloseFailed(f) => fault == Some(f) && lcl == old(lcl)
    {
      closed := closed + [data];
      match transition(lcl, data)
      case Closed(next) =>
        lcl := next;
        fault := None;
      case CloseFailed(f) =>
        fault := Some(f);
    }
  }
}
