/** `ApplyLedgerChainWork`: replays the headers and transaction sets of a range
    of ledgers from downloaded checkpoint files, one ledger per scheduler step,
    checking every step against the ledger manager's last closed ledger (LCL). */
module ApplyLedgerChain {
  import opened LedgerTypes
  import opened XdrStream
  import opened Checkpoints
  import opened TxSetResolver
  import opened Classification
  import opened LedgerManagement
  import opened ReplayStep

  /** The ledgers to replay, both ends included. */
  datatype LedgerRange = LedgerRange(first: uint32, last: uint32)

  /** The scheduler-visible states `onRun` returns. */
  datatype WorkState = WorkRunning | WorkSuccess | WorkFailure

  /** How `onRun` ends: with a state, or by rethrowing an exception. */
  datatype RunOutcome = Returned(state: WorkState) | Rethrown(fault: Fault)

  /** The `catch` clauses of `onRun`: a broken ledger invariant is rethrown
      unchanged; a filesystem fault and every other exception become a failure
      of the work. */
  function OutcomeOfFault(f: Fault): (r: RunOutcome)
    ensures r.Rethrown? <==> f.InvariantDoesNotHold?
    ensures r.Rethrown? ==> r.fault == f
    ensures r.Returned? ==> r.state == WorkFailure
  {
    match f
    case InvariantDoesNotHold => Rethrown(f)
    case FileSystemFault => Returned(WorkFailure)
    case RuntimeError(_) => Returned(WorkFailure)
  }

  class ApplyLedgerChainWork {
    /** The download directory: the header file and the transaction file of
        each checkpoint that is present, keyed by checkpoint id. */
    const headerFiles: map<uint32, seq<HeaderEntry>>
    const txFiles: map<uint32, seq<TxEntry>>
    const range: LedgerRange
    const lm: LedgerManager
    /** `HistoryManager::getCheckpointFrequency()`. */
    const checkpointFrequency: uint32
    /** `TxSetFrame::getContentsHash`; opaque to the replay engine. */
    const contentsHash: TxSet -> Hash

    /** `mLastApplied`: the last header replayed successfully. */
    var lastApplied: HeaderEntry
    /** `mCurrSeq`: the checkpoint whose files are read. */
    var currSeq: uint32
    var filesOpen: bool
    var hdrIn: InputStream<HeaderEntry>
    var txIn: InputStream<TxEntry>
    /** `mTxHistoryEntry`: the one transaction-set entry buffered between calls. */
    var txHistoryEntry: TxEntry
    /** The apply-ledger-chain success and failure meters. */
    var successCount: nat
    var failureCount: nat

    ghost predicate Valid()
      reads this
    {
      checkpointFrequency > 0 && hdrIn.Valid() && txIn.Valid()
    }

    constructor (headerFiles: map<uint32, seq<HeaderEntry>>, txFiles: map<uint32, seq<TxEntry>>,
                 range: LedgerRange, lm: LedgerManager, checkpointFrequency: uint32,
                 contentsHash: TxSet -> Hash, lastApplied: HeaderEntry)
      requires checkpointFrequency > 0
      ensures Valid()
      ensures this.headerFiles == headerFiles && this.txFiles == txFiles && this.range == range
      ensures this.lm == lm && this.checkpointFrequency == checkpointFrequency
      ensures this.contentsHash == contentsHash && this.lastApplied == lastApplied
      ensures currSeq == 0 && !filesOpen && hdrIn == ClosedStream() && txIn == ClosedStream()
      ensures txHistoryEntry == DefaultTxEntry && successCount == 0 && failureCount == 0
    {
      this.headerFiles := headerFiles;
      this.txFiles := txFiles;
      this.range := range;
      this.lm := lm;
      this.checkpointFrequency := checkpointFrequency;
      this.contentsHash := contentsHash;
      this.lastApplied := lastApplied;
      currSeq := 0;
      filesOpen := false;
      hdrIn := ClosedStream();
      txIn := ClosedStream();
      txHistoryEntry := DefaultTxEntry;
      successCount := 0;
      failureCount := 0;
    }

    /** The state a single-ledger step reads and changes. */
    ghost function Snap(): Snapshot
      reads this, lm
    {
      Snapshot(hdrIn, txIn, txHistoryEntry, lastApplied, successCount, failureCount, lm.lcl, lm.closed)
    }

    /** `onReset`: start from the current LCL, at the checkpoint containing the
        first ledger of the range, with both files closed. */
    method OnReset()
      requires Valid()
      modifies this`lastApplied, this`currSeq, this`hdrIn, this`txIn, this`filesOpen
      ensures Valid()
      ensures lastApplied == lm.lcl
      ensures currSeq == CheckpointContainingLedger(range.first, checkpointFrequency)
      ensures hdrIn == ClosedStream() && txIn == ClosedStream() && !filesOpen
      // where the rounding does not wrap, the replay starts at a checkpoint id
      // covering the range's first ledger
      ensures (range.first as int / checkpointFrequency as int + 1) * checkpointFrequency as int <= 0x1_0000_0000 ==>
        IsCheckpoint(currSeq as int, checkpointFrequency as int) && range.first <= currSeq
    {
      if (range.first as int / checkpointFrequency as int + 1) * checkpointFrequency as int <= 0x1_0000_0000 {
        CheckpointContainsLedger(range.first, checkpointFrequency);
      }
      lastApplied := lm.lcl;
      currSeq := CheckpointContainingLedger(range.first, checkpointFrequency);
      hdrIn := ClosedStream();
      txIn := ClosedStream();
      filesOpen := false;
    }

    /** `openCurrentInputFiles`: close both streams, open the current
        checkpoint's header file and then its transaction file (a missing file
        is a filesystem fault), and empty the transaction-set buffer. */
    method OpenCurrentInputFiles() returns (fault: Option<Fault>)
      requires Valid()
      modifies this`hdrIn, this`txIn, this`txHistoryEntry, this`filesOpen
      ensures Valid()
      ensures fault.None? <==> currSeq in headerFiles && currSeq in txFiles
      ensures fault.None? ==>
        && hdrIn == OpenStream(headerFiles[currSeq]) && txIn == OpenStream(txFiles[currSeq])
        && txHistoryEntry == DefaultTxEntry && filesOpen
      ensures fault.Some? ==>
        && fault.value == FileSystemFault
        && hdrIn == (if currSeq in headerFiles then OpenStream(headerFiles[currSeq]) else ClosedStream())
        && txIn == ClosedStream()
        && txHistoryEntry == old(txHistoryEntry) && filesOpen == old(filesOpen)
    {
      hdrIn := ClosedStream();
      txIn := ClosedStream();
      if currSeq !in headerFiles {
        return Some(FileSystemFault);
      }
      hdrIn := OpenStream(headerFiles[currSeq]);
      if currSeq !in txFiles {
        return Some(FileSystemFault);
      }
      txIn := OpenStream(txFiles[currSeq]);
      txHistoryEntry := DefaultTxEntry;
      filesOpen := true;
      fault := None;
    }

    /** `getCurrentTxSet`: the transaction set of the ledger after the LCL. It
        passes over buffered entries below that ledger, reading the next entry
        from the stream each time, and stops at the first entry that is not
        below it, which stays in the buffer. */
    method GetCurrentTxSet() returns (txSet: TxSet)
      requires Valid()
      modifies this`txIn, this`txHistoryEntry
      ensures Valid()
      ensures var r := ResolutionIn(old(Snap()));
        && txSet == r.txSet
        && txHistoryEntry == r.buffer
        && txIn == TxStreamAfter(old(Snap()), r)
    {
      var target := Inc(lm.LastClosedLedgerNum());
      ghost var lclHash := lm.lcl.hash;
      ghost var r0 := ResolutionIn(Snap());
      ghost var read: nat := 0;
      while true
        invariant txIn.Valid() && txIn.records == old(txIn.records) && txIn.good == old(txIn.good)
        invariant txIn.pos == old(txIn.pos) + read && read <= r0.consumed
        invariant Resolve(txHistoryEntry, txIn.Remaining(), target, lclHash) == r0.(consumed := r0.consumed - read)
        decreases |txIn.Remaining()|
      {
        if txHistoryEntry.ledgerSeq < target {
          // an empty ledger's slot, or an entry left from an earlier ledger
        } else if txHistoryEntry.ledgerSeq > target {
          break;
        } else {
          return txHistoryEntry.txSet;
        }
        if !txIn.good {
          break;
        }
        ghost var rest := txIn.Remaining();
        var next := txIn.ReadOne();
        txIn := next.1;
        if next.0.None? {
          break;
        }
        assert Resolve(txHistoryEntry, rest, target, lclHash)
            == Resolve(rest[0], rest[1..], target, lclHash).(consumed := r0.consumed - read);
        txHistoryEntry := next.0.value;
        read := read + 1;
      }
      txSet := EmptyTxSet(lm.lcl.hash);
    }

    /** `applyHistoryOfSingleLedger`: read one header and act on where it
        stands relative to the LCL, as `SingleLedgerStep` relates the state
        before and after the call. */
    method ApplyHistoryOfSingleLedger() returns (r: StepResult)
      requires Valid()
      modifies this`hdrIn, this`txIn, this`txHistoryEntry, this`lastApplied
      modifies this`successCount, this`failureCount, lm`lcl, lm`closed
      ensures Valid()
      ensures SingleLedgerStep(old(Snap()), Snap(), r, contentsHash, lm.transition)
    {
      ghost var s := Snap();
      var read := hdrIn.ReadOne();
      hdrIn := read.1;
      if read.0.None? {
        return NoMore;
      }
      var hHeader := read.0.value;
      var header := hHeader.header;
      var lclHeader := lm.lcl;
      match Classify(header.ledgerSeq, lclHeader.header.ledgerSeq)
      case Stale =>
        return Skipped;
      case OneBeforeLcl =>
        if hHeader.hash != lclHeader.header.previousLedgerHash {
          return Failed(RuntimeError(PredecessorHashMismatch));
        }
        return Skipped;
      case AtLcl =>
        if hHeader.hash != lm.lcl.hash {
          failureCount := failureCount + 1;
          return Failed(RuntimeError(LclHashMismatch));
        }
        return Skipped;
      case Overshoot =>
        failureCount := failureCount + 1;
        return Failed(RuntimeError(Overshot));
      case NextLedger =>
        r := ApplyNextLedger(hHeader);
    }

    /** The next-ledger branch of `applyHistoryOfSingleLedger`, for header `h`
        just read: check the previous hash, resolve the transaction set and
        check its content hash, close the ledger, check the hash it produced. */
    method ApplyNextLedger(h: HeaderEntry) returns (r: StepResult)
      requires Valid()
      modifies this`txIn, this`txHistoryEntry, this`lastApplied
      modifies this`successCount, this`failureCount, lm`lcl, lm`closed
      ensures Valid()
      ensures NextLedgerStep(old(Snap()), h, Snap(), r, contentsHash, lm.transition)
    {
      if h.header.previousLedgerHash != lm.lcl.hash {
        failureCount := failureCount + 1;
        return Failed(RuntimeError(PreviousHashMismatch));
      }
      var txSet := GetCurrentTxSet();
      ghost var resolved := Snap();
      if h.header.scpValue.txSetHash != contentsHash(txSet) {
        failureCount := failureCount + 1;
        return Failed(RuntimeError(TxSetHashMismatch));
      }
      var closeFault := lm.CloseLedger(CloseRequest(h, txSet));
      if closeFault.Some? {
        r := Failed(closeFault.value);
      } else if lm.lcl.hash != h.hash {
        failureCount := failureCount + 1;
        r := Failed(RuntimeError(ResultHashMismatch));
      } else {
        successCount := successCount + 1;
        lastApplied := h;
        r := Applied;
      }
      assert CloseStep(resolved, h, CloseRequest(h, txSet), Snap(), r, lm.transition);
    }

    /** The rollover `onRun` performs when a checkpoint's headers have run
        out: move `currSeq` on by the frequency, in `uint32_t` arithmetic, and
        mark the files closed. Where that does not wrap, a checkpoint id moves
        to the next one. */
    method NextCheckpoint()
      requires Valid()
      modifies this`currSeq, this`filesOpen
      ensures currSeq == Wrap(old(currSeq) as int + checkpointFrequency as int) && !filesOpen
      ensures IsCheckpoint(old(currSeq) as int, checkpointFrequency as int)
                && old(currSeq) as int + checkpointFrequency as int < 0x1_0000_0000 ==>
        && IsCheckpoint(currSeq as int, checkpointFrequency as int)
        && currSeq == CheckpointContainingLedger(Inc(old(currSeq)), checkpointFrequency)
    {
      if IsCheckpoint(currSeq as int, checkpointFrequency as int)
         && currSeq as int + checkpointFrequency as int < 0x1_0000_0000 {
        AdvanceIsNextCheckpoint(currSeq, checkpointFrequency);
      }
      currSeq := Wrap(currSeq as int + checkpointFrequency as int);
      filesOpen := false;
    }

    /** Whether one call of `onRun` gets to the single-ledger step: the files
        are open, or both files of the current checkpoint are present. */
    ghost predicate CanStep()
      reads this
    {
      filesOpen || (currSeq in headerFiles && currSeq in txFiles)
    }

    /** The state the single-ledger step of one call of `onRun` starts from:
        the current one, or, when the files are closed, the one with the
        current checkpoint's files freshly opened and the buffer reset. */
    ghost function StepStart(): Snapshot
      reads this, lm
      requires CanStep()
    {
      if filesOpen then Snap()
      else Snap().(hdrIn := OpenStream(headerFiles[currSeq]), txIn := OpenStream(txFiles[currSeq]),
                   txHistoryEntry := DefaultTxEntry)
    }

    /** `onRun`: one scheduler step. It opens the current checkpoint's files if
        they are closed and replays one header, as `SingleLedgerStep` says;
        when the checkpoint's headers have run out it moves to the next
        checkpoint, to be opened on the next call. The work succeeds exactly
        when the LCL has reached the last ledger of the range, and exceptions
        are mapped as `OutcomeOfFault` says. `step` is what happened: a failed
        open, or the single-ledger step's result. */
    method OnRun() returns (outcome: RunOutcome, ghost step: StepResult)
      requires Valid()
      modifies this`hdrIn, this`txIn, this`txHistoryEntry, this`filesOpen, this`currSeq
      modifies this`lastApplied, this`successCount, this`failureCount, lm`lcl, lm`closed
      ensures Valid()
      ensures step.Failed? ==> outcome == OutcomeOfFault(step.fault)
      ensures !step.Failed? ==>
        outcome == Returned(if lm.lcl.header.ledgerSeq == range.last then WorkSuccess else WorkRunning)
      // the files of the current checkpoint could not be opened: nothing is read
      ensures !old(CanStep()) ==>
        && step == Failed(FileSystemFault)
        && Snap() == old(Snap()).(hdrIn := hdrIn, txIn := ClosedStream())
        && hdrIn == (if currSeq in headerFiles then OpenStream(headerFiles[currSeq]) else ClosedStream())
        && !filesOpen && currSeq == old(currSeq)
      // otherwise exactly one single-ledger step, from the opened files
      ensures old(CanStep()) ==> SingleLedgerStep(old(StepStart()), Snap(), step, contentsHash, lm.transition)
      ensures old(CanStep()) && step != NoMore ==> filesOpen && currSeq == old(currSeq)
      // the checkpoint's headers ran out: advance to the next checkpoint
      ensures step == NoMore ==> currSeq == Wrap(old(currSeq) as int + checkpointFrequency as int) && !filesOpen
      ensures step == NoMore && IsCheckpoint(old(currSeq) as int, checkpointFrequency as int)
                && old(currSeq) as int + checkpointFrequency as int < 0x1_0000_0000 ==>
        && IsCheckpoint(currSeq as int, checkpointFrequency as int)
        && currSeq == CheckpointContainingLedger(Inc(old(currSeq)), checkpointFrequency)
    {
      ghost var start := if CanStep() then StepStart() else Snap();
      if !filesOpen {
        var openFault := OpenCurrentInputFiles();
        if openFault.Some? {
          assert Snap() == old(Snap()).(hdrIn := hdrIn, txIn := ClosedStream());
          step := Failed(openFault.value);
          return OutcomeOfFault(openFault.value), step;
        }
      }
      assert Snap() == start;
      var applied := ApplyHistoryOfSingleLedger();
      step := applied;
      ghost var after := Snap();
      if applied.Failed? {
        return OutcomeOfFault(applied.fault), step;
      }
      if applied == NoMore {
        NextCheckpoint();
      }
      assert Snap() == after;
      outcome := Returned(if lm.lcl.header.ledgerSeq == range.last then WorkSuccess else WorkRunning);
    }
  }
}
