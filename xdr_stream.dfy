/** A forward-only record stream over one archive file, standing for
    `XDRInputFileStream`: its records, a read cursor and the stream's good flag.
    The file itself is an in-memory sequence of already decoded records. */
module XdrStream {
  import opened LedgerTypes

  datatype InputStream<T> = InputStream(records: seq<T>, pos: nat, good: bool) {

    ghost predicate Valid() {
      pos <= |records|
    }

    /** The records a caller can still read: none once the stream is not good. */
    function Remaining(): seq<T>
      requires Valid()
    {
      if good then records[pos..] else []
    }

    /** `readOne`: the next record if there is one; a read at the end of the
        file fails and leaves the stream not good. */
    function ReadOne(): (r: (Option<T>, InputStream<T>))
      requires Valid()
      ensures r.1.Valid() && r.1.records == records && r.1.pos >= pos
      ensures Remaining() == [] <==> r.0.None?
      ensures r.0.Some? ==> r.0.value == Remaining()[0] && r.1.Remaining() == Remaining()[1..]
      ensures r.0.None? ==> r.1.Remaining() == [] && r.1.pos == pos
    {
      if good && pos < |records| then (Some(records[pos]), this.(pos := pos + 1))
      else (None, this.(good := false))
    }
  }

  /** A closed stream: nothing can be read from it. */
  function ClosedStream<T>(): (s: InputStream<T>)
    ensures s.Valid() && s.Remaining() == []
  {
    InputStream([], 0, false)
  }

  /** A stream just opened on a file holding `records`. */
  function OpenStream<T>(records: seq<T>): (s: InputStream<T>)
    ensures s.Valid() && s.Remaining() == records
  {
    InputStream(records, 0, true)
  }
}
