/** Checkpoint geometry of the history archive: ledgers are archived in groups
    of `freq` consecutive ledgers, and a checkpoint is named after the last
    ledger it covers (63, 127, 191, ... for a frequency of 64). */
module Checkpoints {
  import opened LedgerTypes

  /** `HistoryManager::checkpointContainingLedger`: round the ledger up to the
      next multiple of the frequency and subtract one, in `uint32_t`
      arithmetic. */
  function CheckpointContainingLedger(ledger: uint32, freq: uint32): uint32
    requires freq > 0
  {
    Wrap((ledger as int / freq as int + 1) * freq as int - 1)
  }

  /** A checkpoint id: the last ledger of a group of `freq` ledgers. */
  ghost predicate IsCheckpoint(c: int, freq: int)
    requires freq > 0
  {
    c >= 0 && (c + 1) % freq == 0
  }

  lemma MulDivExact(q: int, f: int)
    requires f > 0 && q >= 0
    ensures (q * f) / f == q && (q * f) % f == 0
  {
    var d, m := (q * f) / f, (q * f) % f;
    assert q * f == d * f + m && 0 <= m < f;
    assert (q - d) * f == m;
    if q - d >= 1 {
      MulAtLeast(q - d, f);
      assert false;
    } else if d - q >= 1 {
      MulAtLeast(d - q, f);
      assert false;
    }
  }

  lemma MulAtLeast(a: int, f: int)
    requires a >= 1 && f > 0
    ensures a * f >= f
  {
    assert a * f == (a - 1) * f + f;
  }

  /** Where it does not wrap around, the checkpoint containing a ledger is a
      checkpoint id, covers the ledger, and is fewer than `freq` ledgers past it. */
  lemma {:induction false} CheckpointContainsLedger(ledger: uint32, freq: uint32)
    requires freq > 0
    requires (ledger as int / freq as int + 1) * freq as int <= 0x1_0000_0000
    ensures var c := CheckpointContainingLedger(ledger, freq);
      IsCheckpoint(c as int, freq as int) &&
      ledger <= c && c as int < ledger as int + freq as int
  {
    var l, f := ledger as int, freq as int;
    var q := l / f;
    var c := CheckpointContainingLedger(ledger, freq);
    assert c as int == (q + 1) * f - 1;
    MulDivExact(q + 1, f);
    assert l == q * f + l % f;
    assert (q + 1) * f == q * f + f;
  }

  /** Advancing a checkpoint id by the frequency, as the driver does when a
      checkpoint's headers are exhausted, gives the next one: the checkpoint
      containing the ledger right after it. */
  lemma {:induction false} AdvanceIsNextCheckpoint(c: uint32, freq: uint32)
    requires freq > 0 && IsCheckpoint(c as int, freq as int)
    requires c as int + freq as int < 0x1_0000_0000
    ensures Wrap(c as int + freq as int) == CheckpointContainingLedger(Inc(c), freq)
    ensures IsCheckpoint(Wrap(c as int + freq as int) as int, freq as int)
  {
    var f := freq as int;
    var k := (c as int + 1) / f;
    assert c as int + 1 == k * f by {
      assert c as int + 1 == k * f + (c as int + 1) % f;
    }
    MulDivExact(k, f);
    assert Inc(c) as int == k * f;
    assert (k + 1) * f == k * f + f;
    MulDivExact(k + 1, f);
  }
}
