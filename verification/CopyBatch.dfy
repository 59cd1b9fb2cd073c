/** Batches of formatted rows and the writer that sends them (internal/copy/copy.go). */
module CopyBatch {
  import opened Bytes
  import CopyText
  import Lines

  /** The target commits a record set as a whole, or rejects it as a whole. */
  predicate AllAccepted(accepts: bytes -> bool, records: seq<bytes>) {
    forall i | 0 <= i < |records| :: accepts(records[i])
  }

  class Batch {
    var data: seq<bytes>
    var rowCount: int
    var byteCount: int
    const maxRows: int
    const maxBytes: int

    /** The two counters describe the data. */
    ghost predicate Valid()
      reads this
    {
      rowCount == |data| && byteCount == Size(data)
    }

    constructor (maxRows: int, maxBytes: int)
      ensures Valid() && data == []
      ensures this.maxRows == maxRows && this.maxBytes == maxBytes
    {
      data, rowCount, byteCount := [], 0, 0;
      this.maxRows, this.maxBytes := maxRows, maxBytes;
    }

    /** Appends a formatted row and says whether the batch has reached one of its limits. */
    method AddRow(row: CopyText.Row) returns (full: bool)
      requires Valid()
      modifies this
      ensures Valid()
      ensures data == old(data) + [CopyText.EncodeRow(row)]
      ensures full <==> |data| >= maxRows || Size(data) >= maxBytes
    {
      var formatted := CopyText.FormatRowToCopyText(row);
      SizeSnoc(data, formatted);
      data := data + [formatted];
      rowCount := rowCount + 1;
      byteCount := byteCount + |formatted|;
      full := rowCount >= maxRows || byteCount >= maxBytes;
    }

    method Reset()
      modifies this
      ensures Valid() && data == []
    {
      data, rowCount, byteCount := [], 0, 0;
    }
  }

  /** The writer together with the table it writes to. */
  class CopyWriter {
    /** Whether the target accepts a record; constraints are local to one row. */
    const accepts: bytes -> bool
    /** Every record committed so far. */
    var committed: multiset<bytes>

    constructor (accepts: bytes -> bool)
      ensures this.accepts == accepts && committed == multiset{}
    {
      this.accepts := accepts;
      committed := multiset{};
    }

    /** One COPY ... FROM STDIN: all records of the stream are committed, or none. */
    method CopyFrom(stream: bytes) returns (ok: bool)
      modifies this
      ensures ok == AllAccepted(accepts, Lines.Records(stream))
      ensures committed == old(committed) + if ok then multiset(Lines.Records(stream)) else multiset{}
    {
      var records := Lines.Records(stream);
      ok := forall i | 0 <= i < |records| :: accepts(records[i]);
      if ok {
        committed := committed + multiset(records);
      }
    }

    method FlushBatch(batch: Batch) returns (ok: bool)
      requires batch.Valid()
      modifies this
      ensures ok == AllAccepted(accepts, Lines.Records(Concat(batch.data)))
      ensures committed
           == old(committed) + if ok then multiset(Lines.Records(Concat(batch.data))) else multiset{}
    {
      if batch.rowCount == 0 {
        assert multiset(Lines.Records(Concat(batch.data))) == multiset{};
        assert committed == old(committed) + multiset{};
        return true;
      }
      var allData := [];
      for i := 0 to |batch.data|
        invariant allData == Concat(batch.data[..i])
        invariant unchanged(this)
      {
        assert batch.data[..i + 1] == batch.data[..i] + [batch.data[i]];
        ConcatSnoc(batch.data[..i], batch.data[i]);
        allData := allData + batch.data[i];
      }
      assert batch.data[..|batch.data|] == batch.data;
      ok := CopyFrom(allData);
    }
  }
}
