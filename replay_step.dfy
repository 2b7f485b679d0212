/** The single-ledger replay step as a relation between the state before and
    after it: what `applyHistoryOfSingleLedger` reads, checks and changes for
    one header of the open checkpoint file. */
module ReplayStep {
  import opened LedgerTypes
  import opened XdrStream
  import opened TxSetResolver
  import opened Classification
  import opened LedgerManagement

  /** What one call of the single-ledger step does: a ledger was applied, a
      header was checked or passed over without applying anything, the
      checkpoint's headers have run out, or an exception was raised. */
  datatype StepResult = Applied | Skipped | NoMore | Failed(fault: Fault)

  /** The part of the replay state a step reads and changes: both input
      streams, the buffered transaction-history entry, the progress output,
      the two meters, and the ledger manager's LCL and close requests. */
  datatype Snapshot = Snapshot(
    hdrIn: InputStream<HeaderEntry>,
    txIn: InputStream<TxEntry>,
    txHistoryEntry: TxEntry,
    lastApplied: HeaderEntry,
    successCount: nat,
    failureCount: nat,
    lcl: HeaderEntry,
    closed: seq<LedgerCloseData>)

  ghost predicate ValidSnapshot(s: Snapshot) {
    s.hdrIn.Valid() && s.txIn.Valid()
  }

  /** What the transaction-set resolver makes of `s`, for the ledger after the LCL. */
  function ResolutionIn(s: Snapshot): Resolution
    requires ValidSnapshot(s)
  {
    Resolve(s.txHistoryEntry, s.txIn.Remaining(), Inc(s.lcl.header.ledgerSeq), s.lcl.hash)
  }

  /** The transaction stream of `s` after the resolver has read `r.consumed`
      entries and, if `r.exhausted`, failed a read at its end. */
  function TxStreamAfter(s: Snapshot, r: Resolution): InputStream<TxEntry> {
    s.txIn.(pos := s.txIn.pos + r.consumed, good := s.txIn.good && !r.exhausted)
  }

  /** The close request the step makes for header `h` with transaction set `txSet`. */
  function CloseRequest(h: HeaderEntry, txSet: TxSet): LedgerCloseData {
    LedgerCloseData(h.header.ledgerSeq, txSet, h.header.scpValue)
  }

  /** One single-ledger step from `s` to `t` with result `r`, given the content
      hash of transaction sets and what closing a ledger does. The header is
      read first; the rest depends on where it stands relative to the LCL:
      a stale header is passed over; the LCL's predecessor and the LCL itself
      are checked by hash; an overshoot fails; the next ledger is handled by
      `NextLedgerStep`. Every state component a case does not mention is
      unchanged. */
  ghost predicate SingleLedgerStep(s: Snapshot, t: Snapshot, r: StepResult,
                                   contentsHash: TxSet -> Hash,
                                   transition: (HeaderEntry, LedgerCloseData) -> CloseResult)
  {
    && ValidSnapshot(s)
    && t.hdrIn == s.hdrIn.ReadOne().1
    && match s.hdrIn.ReadOne().0
       case None => r == NoMore && t == s.(hdrIn := t.hdrIn)
       case Some(h) =>
         var read := s.(hdrIn := t.hdrIn);
         match Classify(h.header.ledgerSeq, s.lcl.header.ledgerSeq)
         case Stale => r == Skipped && t == read
         case OneBeforeLcl =>
           // the source does not mark the failure meter on this mismatch
           && r == (if h.hash == s.lcl.header.previousLedgerHash then Skipped
                    else Failed(RuntimeError(PredecessorHashMismatch)))
           && t == read
         case AtLcl =>
           if h.hash == s.lcl.hash then r == Skipped && t == read
           else r == Failed(RuntimeError(LclHashMismatch)) && t == read.(failureCount := s.failureCount + 1)
         case Overshoot =>
           r == Failed(RuntimeError(Overshot)) && t == read.(failureCount := s.failureCount + 1)
         case NextLedger => NextLedgerStep(read, h, t, r, contentsHash, transition)
  }

  /** The next-ledger case from `s`, where header `h` has just been read: its
      previous hash is checked against the LCL; then its transaction set is
      resolved and its content hash checked against the header's; then the
      ledger is closed, and the step is applied when the new LCL's hash is the
      header's. The failure meter is marked on every failed check but not
      when closing the ledger itself throws. */
  ghost predicate NextLedgerStep(s: Snapshot, h: HeaderEntry, t: Snapshot, r: StepResult,
                                 contentsHash: TxSet -> Hash,
                                 transition: (HeaderEntry, LedgerCloseData) -> CloseResult)
  {
    if h.header.previousLedgerHash != s.lcl.hash then
      r == Failed(RuntimeError(PreviousHashMismatch)) && t == s.(failureCount := s.failureCount + 1)
    else
      && ValidSnapshot(s)
      && var res := ResolutionIn(s);
         var resolved := s.(txIn := TxStreamAfter(s, res), txHistoryEntry := res.buffer);
         if contentsHash(res.txSet) != h.header.scpValue.txSetHash then
           r == Failed(RuntimeError(TxSetHashMismatch)) && t == resolved.(failureCount := s.failureCount + 1)
         else
           CloseStep(resolved, h, CloseRequest(h, res.txSet), t, r, transition)
  }

  /** Closing the ledger from `s` with request `data` for header `h`, and the
      check of the hash the close produced. */
  ghost predicate CloseStep(s: Snapshot, h: HeaderEntry, data: LedgerCloseData, t: Snapshot, r: StepResult,
                            transition: (HeaderEntry, LedgerCloseData) -> CloseResult)
  {
    var requested := s.(closed := s.closed + [data]);
    match transition(s.lcl, data)
    case CloseFailed(f) => r == Failed(f) && t == requested
    case Closed(next) =>
      if next.hash == h.hash then
        r == Applied && t == requested.(lcl := next, lastApplied := h, successCount := s.successCount + 1)
      else
        r == Failed(RuntimeError(ResultHashMismatch))
        && t == requested.(lcl := next, failureCount := s.failureCount + 1)
  }

  /** The header the step reads from `s`, and where it stands relative to the LCL. */
  function PositionIn(s: Snapshot): Option<Position>
    requires ValidSnapshot(s)
  {
    match s.hdrIn.ReadOne().0
    case None => None
    case Some(h) => Some(Classify(h.header.ledgerSeq, s.lcl.header.ledgerSeq))
  }

  /** A header more than one ledger before the LCL is skipped: the step
      succeeds, closes nothing, and leaves the LCL, the progress output and
      the transaction input as they were. */
  lemma {:induction false} StaleHeaderIsSkipped(s: Snapshot, t: Snapshot, r: StepResult,
      contentsHash: TxSet -> Hash, transition: (HeaderEntry, LedgerCloseData) -> CloseResult)
    requires SingleLedgerStep(s, t, r, contentsHash, transition)
    requires PositionIn(s) == Some(Stale)
    ensures r == Skipped
    ensures t.lcl == s.lcl && t.closed == s.closed && t.lastApplied == s.lastApplied
    ensures t.txIn == s.txIn && t.txHistoryEntry == s.txHistoryEntry
  {
  }

  /** At the LCL's predecessor or at the LCL itself nothing is ever closed:
      the step succeeds exactly when the header's hash is the LCL's previous
      hash, resp. the LCL's hash, and otherwise fails; either way the LCL,
      the close requests, the progress output and the transaction input are
      left alone. */
  lemma {:induction false} BoundaryHeaderIsOnlyChecked(s: Snapshot, t: Snapshot, r: StepResult,
      contentsHash: TxSet -> Hash, transition: (HeaderEntry, LedgerCloseData) -> CloseResult)
    requires SingleLedgerStep(s, t, r, contentsHash, transition)
    requires PositionIn(s) == Some(OneBeforeLcl) || PositionIn(s) == Some(AtLcl)
    ensures var h := s.hdrIn.ReadOne().0.value;
      var expected := if PositionIn(s) == Some(AtLcl) then s.lcl.hash else s.lcl.header.previousLedgerHash;
      (r == Skipped <==> h.hash == expected) && (r != Skipped ==> r.Failed?)
    ensures t.lcl == s.lcl && t.closed == s.closed && t.lastApplied == s.lastApplied
    ensures t.txIn == s.txIn && t.txHistoryEntry == s.txHistoryEntry
  {
  }

  /** A header more than one ledger ahead of the LCL fails with an overshoot
      before any transaction set is read or any ledger is closed. */
  lemma {:induction false} OvershootFailsBeforeApplying(s: Snapshot, t: Snapshot, r: StepResult,
      contentsHash: TxSet -> Hash, transition: (HeaderEntry, LedgerCloseData) -> CloseResult)
    requires SingleLedgerStep(s, t, r, contentsHash, transition)
    requires PositionIn(s) == Some(Overshoot)
    ensures r == Failed(RuntimeError(Overshot))
    ensures t.lcl == s.lcl && t.closed == s.closed && t.lastApplied == s.lastApplied
    ensures t.txIn == s.txIn && t.txHistoryEntry == s.txHistoryEntry
  {
  }

  /** A ledger is closed only for the ledger after the LCL, whose previous
      hash is the LCL's hash and whose resolved transaction set hashes to the
      header's transaction-set hash; then exactly one request is made, for
      that sequence, transaction set and consensus value. The resolver's
      target, `LCL + 1`, is then the header's own sequence. */
  lemma {:induction false} ClosesOnlyAfterChecks(s: Snapshot, t: Snapshot, r: StepResult,
      contentsHash: TxSet -> Hash, transition: (HeaderEntry, LedgerCloseData) -> CloseResult)
    requires SingleLedgerStep(s, t, r, contentsHash, transition)
    ensures t.closed == s.closed || (
      var h := s.hdrIn.ReadOne().0.value;
      && s.hdrIn.ReadOne().0.Some?
      && PositionIn(s) == Some(NextLedger)
      && h.header.ledgerSeq == Inc(s.lcl.header.ledgerSeq)
      && h.header.previousLedgerHash == s.lcl.hash
      && contentsHash(ResolutionIn(s).txSet) == h.header.scpValue.txSetHash
      && t.closed == s.closed + [CloseRequest(h, ResolutionIn(s).txSet)])
  {
    var p := PositionIn(s);
    if p.Some? && p.value == NextLedger {
      var h := s.hdrIn.ReadOne().0.value;
      assert h.header.ledgerSeq == Inc(s.lcl.header.ledgerSeq);
    }
  }

  /** The progress output moves exactly on `Applied`, to the header read, and
      `Applied` means the ledger was closed and the new LCL carries the
      header's hash. Any other result leaves the progress output and the
      success meter alone. */
  lemma {:induction false} ProgressMovesExactlyOnApply(s: Snapshot, t: Snapshot, r: StepResult,
      contentsHash: TxSet -> Hash, transition: (HeaderEntry, LedgerCloseData) -> CloseResult)
    requires SingleLedgerStep(s, t, r, contentsHash, transition)
    ensures r == Applied ==>
      && s.hdrIn.ReadOne().0.Some?
      && t.lastApplied == s.hdrIn.ReadOne().0.value
      && t.lcl.hash == t.lastApplied.hash
      && |t.closed| == |s.closed| + 1
      && t.successCount == s.successCount + 1
    ensures r != Applied ==> t.lastApplied == s.lastApplied && t.successCount == s.successCount
  {
  }

  /** After a close that succeeds, the step is `Applied` exactly when the new
      LCL's hash is the header's hash, and otherwise fails with a result-hash
      mismatch. */
  lemma {:induction false} AppliedIffResultHashMatches(s: Snapshot, t: Snapshot, r: StepResult,
      contentsHash: TxSet -> Hash, transition: (HeaderEntry, LedgerCloseData) -> CloseResult)
    requires SingleLedgerStep(s, t, r, contentsHash, transition)
    requires |t.closed| == |s.closed| + 1 && transition(s.lcl, t.closed[|s.closed|]).Closed?
    ensures t.lcl == transition(s.lcl, t.closed[|s.closed|]).lcl
    ensures r == Applied <==> t.lcl.hash == s.hdrIn.ReadOne().0.value.hash
    ensures r != Applied ==> r == Failed(RuntimeError(ResultHashMismatch))
  {
    ClosesOnlyAfterChecks(s, t, r, contentsHash, transition);
  }

  /** The step relation leaves nothing open: from a given state, with the
      same content hash and close transition, there is one result and one
      successor state. */
  lemma {:induction false} StepIsDeterministic(s: Snapshot, t1: Snapshot, r1: StepResult,
      t2: Snapshot, r2: StepResult,
      contentsHash: TxSet -> Hash, transition: (HeaderEntry, LedgerCloseData) -> CloseResult)
    requires SingleLedgerStep(s, t1, r1, contentsHash, transition)
    requires SingleLedgerStep(s, t2, r2, contentsHash, transition)
    ensures t1 == t2 && r1 == r2
  {
  }
}
