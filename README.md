# Ledger-chain replay engine (`ApplyLedgerChainWork`)

This project models the part of a ledger node that replays a range of
historical ledgers during catch-up. The node downloads checkpoint files: one
file of ledger headers and one file of transaction sets per checkpoint of
`checkpointFrequency` ledgers. The engine reads those files one header at a
time. It compares each header with the ledger manager's last closed ledger
(LCL). It hands the next ledger (with its transaction set) to the ledger
manager's `closeLedger`. Then it checks that the ledger the close produced has
the hash the archive recorded.

The model is written in the source's own form. `ApplyLedgerChainWork` is a
class whose methods update its fields:

- `currSeq`, the current checkpoint;
- `filesOpen`;
- `lastApplied`, the progress output;
- `txHistoryEntry`, the buffered transaction-history entry;
- the two input streams, held by value as the C++ members are;
- the success and failure meters, kept as counters.

The ledger manager is a separate class. It holds the LCL and records every
`closeLedger` request. What closing a ledger does is a function the manager is
built with.

Files, one module each:

- `ledger_types.dfy` (`LedgerTypes`): the records exchanged and the faults.
  Sequence numbers are `uint32` with explicit wrap-around.
- `xdr_stream.dfy` (`XdrStream`): a forward-only record stream with a read
  cursor and a good flag.
- `checkpoints.dfy` (`Checkpoints`): checkpoint ids, and the proof that
  advancing by the frequency reaches the next checkpoint.
- `tx_set_resolver.dfy` (`TxSetResolver`): the lookahead-one resolver as a
  recursive specification function, with its lemmas.
- `classification.dfy` (`Classification`): the five-way position of a header
  relative to the LCL.
- `replay_step.dfy` (`ReplayStep`): the single-ledger step as a relation
  between the state before and after it, and its properties.
- `ledger_manager.dfy` (`LedgerManagement`): the LCL and `closeLedger`.
- `apply_ledger_chain_work.dfy` (`ApplyLedgerChain`): the work class, its
  methods and the exception mapping. The next-ledger branch of
  `applyHistoryOfSingleLedger` and the checkpoint rollover of `onRun` are
  methods of their own, `ApplyNextLedger` and `NextCheckpoint`.

Collaborators the engine cannot see are parameters of the model:

- the download directory: two maps from checkpoint id to file contents; a
  missing key is a file that fails to open;
- `closeLedger`: the ledger manager's `transition`;
- the transaction-set content hash;
- the checkpoint frequency.

Behaviour of the code worth noting:

- The resolver looks for ledger `LCL + 1`, read from the ledger manager, not
  for the header's own sequence. The two agree only because of the
  next-ledger test. `Classify` states this: `NextLedger` implies
  `ledgerSeq == Inc(lclSeq)`.
- The buffer is never empty. It starts as a default entry with sequence 0,
  which every target the step uses passes over (the next-ledger case never
  has target 0). A matching entry stays in the buffer after
  it is returned.
- The failure meter is not marked when the one-before-LCL check fails, nor
  when `closeLedger` itself throws.
- The success test runs after the step, in the same call. A further call after
  success would read and apply the next header of the open file. Nothing in
  this engine prevents that; it relies on the scheduler not calling again.
- `ledgerSeq + 1` is `uint32_t` arithmetic. A header at sequence `2^32 - 1`
  wraps to 0 and is classified as stale (or, against an LCL of 0, as the
  LCL's predecessor). `Classify` states this case separately from the five
  natural conditions, which hold below that value.

## Model

| member | source | states |
|---|---|---|
| `Classification.Classify` | src/catchup/ApplyLedgerChainWork.cpp:135-184 | Below the largest sequence number the five positions are exactly: `seq + 1 < lcl` (stale), `seq + 1 == lcl`, `seq == lcl`, `seq == lcl + 1` (next), `seq > lcl + 1` (overshoot), so they are disjoint and exhaustive. At `2^32 - 1` the wrapped `+ 1` makes the header stale (predecessor if the LCL is 0). The header's sequence is the resolver's target `Inc(lcl)` in the next-ledger case (the converse fails at an LCL of `2^32 - 1`, where the target wraps to 0). In the next-ledger case the LCL is below `2^32 - 1`, so that target is never 0. |
| `TxSetResolver.Resolve` | src/catchup/ApplyLedgerChainWork.cpp:96-117 | The resolver stops at the first pending entry (buffer, then unread stream entries) whose sequence is not below the target. That entry is left in the buffer. Only entries below the target are read past, and none after the stopping entry. The result is the stopping entry's transaction set if its sequence is the target, and otherwise the empty set keyed to the LCL hash. When every entry is below the target, the whole stream is read and the read at the end fails. |
| `TxSetResolver.FindsPendingEntry` | src/catchup/ApplyLedgerChainWork.cpp:96-113 | On a stream in strictly increasing order, if the entry for the target is pending, the resolver returns its transaction set and reads exactly the entries before it. |
| `TxSetResolver.KeepsLaterEntries` | src/catchup/ApplyLedgerChainWork.cpp:92-114 | After resolving one ledger, a later ledger whose entry the ordered stream holds is still found from what is left. The lookahead never discards an entry a later ledger needs. |
| `TxSetResolver.NoEntryGivesEmptySet` | src/catchup/ApplyLedgerChainWork.cpp:116-117 | If no pending entry is for the target, the result is the empty transaction set keyed to the LCL hash. This is the archive gap left by an empty ledger. |
| `ApplyLedgerChain.ApplyLedgerChainWork.GetCurrentTxSet` | src/catchup/ApplyLedgerChainWork.cpp:86-118 | The loop computes `Resolve` for target `LCL + 1` on the buffer and the unread entries. The returned set, the new buffer and the new stream (cursor moved forward by the entries read; good flag cleared if a read hit the end) are those `Resolve` gives. |
| `ApplyLedgerChain.ApplyLedgerChainWork.ApplyHistoryOfSingleLedger` | src/catchup/ApplyLedgerChainWork.cpp:120-248 | The call is one `SingleLedgerStep` from the state before it to the state after it. That relation fixes the result and every changed field: the header stream after one read; `NoMore` with nothing else changed when no header is left; then, by the header's position against the LCL, stale is `Skipped`; the predecessor and at-LCL cases are `Skipped` iff the hash equals the LCL's previous hash, resp. the LCL's hash, and otherwise fail with that diagnosis; overshoot fails; the next ledger is the `NextLedgerStep` of `ApplyNextLedger`. The failure meter is marked as the source marks it. |
| `ApplyLedgerChain.ApplyLedgerChainWork.ApplyNextLedger` | src/catchup/ApplyLedgerChainWork.cpp:186-247 | The next-ledger branch, as `NextLedgerStep` states: a previous-hash mismatch fails before anything is read. Otherwise the transaction set is resolved (buffer and stream as `Resolve` leaves them) and a content-hash mismatch fails before any close. Otherwise `closeLedger` is called once with the header's sequence, that set and the header's value. A throwing close fails with its fault and no failure mark. A close whose new LCL hash differs from the header's fails with the LCL moved. Otherwise the step is `Applied`, `lastApplied` is the header and the success meter is marked. |
| `ApplyLedgerChain.ApplyLedgerChainWork.OpenCurrentInputFiles` | src/catchup/ApplyLedgerChainWork.cpp:69-84 | Both streams are closed, then the current checkpoint's header file and transaction file are opened in that order. A missing file is a filesystem fault that leaves the flag and buffer as they were. On success the buffer is reset to the default entry and `filesOpen` is set. |
| `ApplyLedgerChain.ApplyLedgerChainWork.OnReset` | src/catchup/ApplyLedgerChainWork.cpp:51-67 | `lastApplied` is the LCL. `currSeq` is the checkpoint containing the range's first ledger; where the rounding does not wrap it is a checkpoint id at or after that ledger. Both streams are closed and `filesOpen` is false. |
| `ApplyLedgerChain.ApplyLedgerChainWork.OnRun` | src/catchup/ApplyLedgerChainWork.cpp:250-292 | When the files are closed and a file of the current checkpoint is missing, it fails with a filesystem fault: only the streams change (the header stream opened if its file exists, the transaction stream closed), and `filesOpen` and `currSeq` stay. Otherwise `step` and the new state are one `SingleLedgerStep` from the state with the files open (freshly opened, with the default buffer, if they were closed). When the headers run out, `currSeq` advances by the checkpoint frequency (`uint32_t` addition) and `filesOpen` is cleared; a checkpoint id then moves to the checkpoint containing the next ledger. Any other step keeps `currSeq` and leaves the files open. Without a fault it returns success iff the LCL sequence equals the range's last ledger, and running otherwise. A fault is mapped by `OutcomeOfFault`. |
| `ApplyLedgerChain.ApplyLedgerChainWork.NextCheckpoint` | src/catchup/ApplyLedgerChainWork.cpp:260-264 | `currSeq` moves on by the frequency with `uint32_t` wrap-around and the files are marked closed. Where that does not wrap, a checkpoint id moves to the checkpoint containing the ledger after it. |
| `ApplyLedgerChain.OutcomeOfFault` | src/catchup/ApplyLedgerChainWork.cpp:276-291 | A broken invariant is rethrown unchanged, and is the only fault rethrown. A filesystem fault and any other runtime error become the failure state. |
| `ReplayStep.StaleHeaderIsSkipped` | src/catchup/ApplyLedgerChainWork.cpp:135-141 | A header more than one ledger before the LCL is `Skipped` with the LCL, the close requests, `lastApplied`, the transaction stream and the buffer unchanged. |
| `ReplayStep.BoundaryHeaderIsOnlyChecked` | src/catchup/ApplyLedgerChainWork.cpp:143-175 | At the LCL's predecessor or at the LCL, the step is `Skipped` iff the header's hash is the expected one, and a failure otherwise. Neither case closes a ledger, reads a transaction set or moves `lastApplied`. |
| `ReplayStep.OvershootFailsBeforeApplying` | src/catchup/ApplyLedgerChainWork.cpp:177-184 | A header more than one ahead of the LCL fails with an overshoot before any transaction set is read or any ledger is closed. |
| `ReplayStep.ClosesOnlyAfterChecks` | src/catchup/ApplyLedgerChainWork.cpp:177-230 | A step makes a close request only for the ledger after the LCL, only when its previous hash is the LCL's hash and its resolved set hashes to the header's set hash, and then makes exactly one, for the header's sequence and value and the resolved set. |
| `ReplayStep.ProgressMovesExactlyOnApply` | src/catchup/ApplyLedgerChainWork.cpp:236-247 | On `Applied` the header was read, `lastApplied` is that header, the new LCL has its hash, one close was requested and the success meter moved by one. Any other result leaves `lastApplied` and the success meter alone. |
| `ReplayStep.AppliedIffResultHashMatches` | src/catchup/ApplyLedgerChainWork.cpp:229-243 | After a close that does not throw, the LCL is what the close produced, and the step is `Applied` iff that LCL's hash is the header's hash; otherwise it fails with a result-hash mismatch. |
| `ReplayStep.StepIsDeterministic` | src/catchup/ApplyLedgerChainWork.cpp:120-248 | From a given state, with the same content hash and close behaviour, the step relation allows one result and one new state. |
| `Checkpoints.CheckpointContainsLedger` | src/catchup/ApplyLedgerChainWork.cpp:63 | Where the rounding does not wrap, the starting checkpoint is a checkpoint id that covers the first ledger and lies fewer than `freq` ledgers past it. |
| `Checkpoints.AdvanceIsNextCheckpoint` | src/catchup/ApplyLedgerChainWork.cpp:262 | Advancing a checkpoint id by the frequency gives the checkpoint that contains the ledger right after it, which is again a checkpoint id. So rollover neither skips nor repeats a checkpoint. |
| `XdrStream.InputStream.ReadOne` | src/catchup/ApplyLedgerChainWork.cpp:126-129 | A read gives the first remaining record and leaves the rest, or gives nothing only when no record remains. A failed read leaves nothing readable. The cursor never moves back. |
| `LedgerManagement.LedgerManager.CloseLedger` | src/catchup/ApplyLedgerChainWork.cpp:229-230 | Every request is recorded. The LCL becomes the closed ledger, or stays as it was when closing throws, and the exception is returned. |
| `ApplyLedgerChain.ApplyLedgerChainWork.constructor` | src/catchup/ApplyLedgerChainWork.cpp:26-38 | The inputs are stored, the streams are closed, the buffer is the default entry and the meters are zero. |

## Left out

- Stream I/O and XDR decoding (`XDRInputFileStream`, `readOne`'s framing): files are in-memory sequences of decoded records. A truncated or malformed file, which makes `readOne` throw, is not modelled. A missing file is the only filesystem fault.
- Path construction (`FileTransferInfo`, `localPath_nogz`): a file is looked up by checkpoint id, one map per file type.
- Closing a ledger (`LedgerManager::closeLedger`, transaction execution): an opaque `transition` from the LCL and the close data. Closing is assumed atomic, so the LCL is unchanged when it throws.
- Content hashing (`TxSetFrame::getContentsHash`) and the network id a transaction set is built with: an opaque function from transaction sets to hashes.
- `HistoryManager::checkpointContainingLedger` is defined outside `ApplyLedgerChainWork.cpp`. `CheckpointContainingLedger` uses that manager's rounding `((l / f) + 1) * f - 1` in `uint32_t` arithmetic.
- Logging, the diagnostic message text, `getStatus` and its progress formatting, and the catch-up manager's status update at :266.
- The test-only bucket-manager override under `BUILD_TESTS` (:215-227) and the `BasicWork` scheduler and retry machinery. The constructor leaves `currSeq` at 0; the scheduler runs `onReset` before the first `onRun`.
- Closing a stream: a closed stream is modelled as one with nothing to read. Every path reopens a stream before reading it again, so the flag a closed C++ stream reports is never observed.
- Exceptions that are not `std::exception`s, which `onRun` would let escape, are not modelled.
- `Checkpoints.CheckpointContainsLedger` and `Checkpoints.AdvanceIsNextCheckpoint` are stated only where the `uint32_t` arithmetic does not wrap. The code does wrap there, and the model computes exactly that.
- `ApplyLedgerChain.ApplyLedgerChainWork.OnReset`, `ApplyLedgerChain.ApplyLedgerChainWork.NextCheckpoint` and `ApplyLedgerChain.ApplyLedgerChainWork.OnRun` state that `currSeq` is a checkpoint id under the same no-wrap conditions, for the same reason.
- The success and failure meters: the source takes them from the application's metrics registry (:33-36), which hands every work instance the same shared meter. The model keeps one pair of counters per work instance, starting at zero, and states only how one step moves them.
