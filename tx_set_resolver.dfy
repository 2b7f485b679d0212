/** The transaction-set lookahead resolver. The archive omits the transaction
    sets of ledgers that closed with no transactions, so the replay engine keeps
    one buffered `TransactionHistoryEntry` between calls and only reads further
    when the buffered entry is behind the ledger it is looking for. */
module TxSetResolver {
  import opened LedgerTypes

  /** The buffered entry followed by the entries the stream can still deliver:
      everything the resolver may look at, in order. */
  function Pending(buffer: TxEntry, rest: seq<TxEntry>): seq<TxEntry> {
    [buffer] + rest
  }

  /** What one resolution produces: the transaction set, the entry left in the
      buffer, how many entries it read from the stream, and whether a read hit
      the end of the stream. */
  datatype Resolution = Resolution(txSet: TxSet, buffer: TxEntry, consumed: nat, exhausted: bool)

  /** The resolver's loop for target ledger `target`, with `rest` the entries
      the stream still holds and `lclHash` the hash of the last closed ledger.
      It stops at the first pending entry whose sequence is not below the
      target: the transaction set is that entry's when the sequence is the
      target and the empty set keyed to `lclHash` otherwise; it reads no entry
      past that one. When every pending entry is below the target it reads the
      whole stream and falls back to the empty set. */
  function Resolve(buffer: TxEntry, rest: seq<TxEntry>, target: uint32, lclHash: Hash): (r: Resolution)
    ensures r.consumed <= |rest|
    ensures r.buffer == Pending(buffer, rest)[r.consumed]
    ensures forall j :: 0 <= j < r.consumed ==> Pending(buffer, rest)[j].ledgerSeq < target
    ensures r.exhausted <==> r.buffer.ledgerSeq < target
    ensures r.exhausted ==> r.consumed == |rest|
    ensures r.txSet == if r.buffer.ledgerSeq == target then r.buffer.txSet else EmptyTxSet(lclHash)
    decreases |rest|
  {
    if buffer.ledgerSeq < target then
      if rest == [] then
        Resolution(EmptyTxSet(lclHash), buffer, 0, true)
      else
        var r := Resolve(rest[0], rest[1..], target, lclHash);
        assert forall j :: 1 <= j <= |rest| ==> Pending(buffer, rest)[j] == Pending(rest[0], rest[1..])[j - 1];
        r.(consumed := r.consumed + 1)
    else if buffer.ledgerSeq > target then
      Resolution(EmptyTxSet(lclHash), buffer, 0, false)
    else
      Resolution(buffer.txSet, buffer, 0, false)
  }

  /** Records in strictly increasing ledger order, as the archive writes them. */
  ghost predicate StrictlyIncreasing(s: seq<TxEntry>) {
    forall i, j :: 0 <= i < j < |s| ==> s[i].ledgerSeq < s[j].ledgerSeq
  }

  /** On an ordered stream, the entry for the target ledger is found whenever
      one is pending, and it is left in the buffer. */
  lemma FindsPendingEntry(buffer: TxEntry, rest: seq<TxEntry>, target: uint32, lclHash: Hash, k: nat)
    requires StrictlyIncreasing(Pending(buffer, rest))
    requires k < |Pending(buffer, rest)| && Pending(buffer, rest)[k].ledgerSeq == target
    ensures var r := Resolve(buffer, rest, target, lclHash);
      r.txSet == Pending(buffer, rest)[k].txSet && r.consumed == k && !r.exhausted
  {
  }

  /** The resolver never discards an entry that a later ledger needs: after
      resolving `first`, resolving a later target `second` from what is left
      (the new buffer and the unread entries) finds the entry for `second`
      whenever the original stream held one. */
  lemma KeepsLaterEntries(buffer: TxEntry, rest: seq<TxEntry>, first: uint32, second: uint32,
                          lclHash1: Hash, lclHash2: Hash, k: nat)
    requires StrictlyIncreasing(Pending(buffer, rest))
    requires first < second
    requires k < |Pending(buffer, rest)| && Pending(buffer, rest)[k].ledgerSeq == second
    ensures var r1 := Resolve(buffer, rest, first, lclHash1);
      var r2 := Resolve(r1.buffer, rest[r1.consumed..], second, lclHash2);
      r2.txSet == Pending(buffer, rest)[k].txSet
  {
    var p := Pending(buffer, rest);
    var r1 := Resolve(buffer, rest, first, lclHash1);
    var n := r1.consumed;
    if k < n {
      assert false;
    }
    var p2 := Pending(r1.buffer, rest[n..]);
    assert p2 == p[n..];
    assert StrictlyIncreasing(p2);
    assert p2[k - n] == p[k];
    FindsPendingEntry(r1.buffer, rest[n..], second, lclHash2, k - n);
  }

  /** When nothing pending is for the target ledger, the resolver returns the
      empty transaction set keyed to the last closed ledger's hash. */
  lemma NoEntryGivesEmptySet(buffer: TxEntry, rest: seq<TxEntry>, target: uint32, lclHash: Hash)
    requires forall j :: 0 <= j < |Pending(buffer, rest)| ==> Pending(buffer, rest)[j].ledgerSeq != target
    ensures Resolve(buffer, rest, target, lclHash).txSet == EmptyTxSet(lclHash)
  {
  }
}
