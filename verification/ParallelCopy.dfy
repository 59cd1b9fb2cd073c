/**
 Sharding, parallel pipelines and the monitor put together: whatever the schedule, a parallel copy that
 succeeds leaves the same rows and the same counters as the sequential copy of the table.
 */
module ParallelCopy {
  import opened Bytes
  import opened Decimal
  import opened Monitor
  import opened Pipeline
  import opened Orchestrator
  import CopyText
  import Lines
  import Multisets
  import ShardRuns
  import Shards

  datatype Job = Job(accepts: bytes -> bool, limits: Limits, name: string, preformatted: bool,
                     table: seq<Shards.Keyed<CopyText.Row>>, min: int, max: int, concurrency: int)

  /** The bytes a row contributes; rows that cannot be formatted stop the run before this matters. */
  function Formatter(preformatted: bool): CopyText.Row -> bytes {
    row => match Format(preformatted, row)
           case None => []
           case Some(f) => f
  }

  function WholeFeed(preformatted: bool, rows: seq<CopyText.Row>): Feed {
    Feed(preformatted, rows, None, |rows|)
  }

  function SequentialFeed(job: Job): Feed {
    WholeFeed(job.preformatted, Shards.AllRows(job.table))
  }

  function ShardConfig(job: Job): Config
    requires job.concurrency > 1
  {
    Config(job.accepts, job.limits, job.name,
           seq(job.concurrency, k requires 0 <= k < job.concurrency =>
             WholeFeed(job.preformatted,
                       Shards.Select(job.table, Shards.Shard(job.min, job.max, job.concurrency, k)))))
  }

  function TableRows(job: Job): Formatted {
    Shards.Image(Formatter(job.preformatted), Shards.AllRows(job.table))
  }

  // ----- Rows of the shards -----

  lemma {:induction false} UsableIsImage(preformatted: bool, rows: seq<CopyText.Row>, end: Option<Stop>, cancelAt: int)
    requires Usable(preformatted, rows, end, cancelAt).1.None?
    ensures Usable(preformatted, rows, end, cancelAt).0 == Shards.Image(Formatter(preformatted), rows)
  {
    if rows != [] {
      UsableIsImage(preformatted, rows[1..], end, cancelAt - 1);
    }
  }

  predicate AllFormat(preformatted: bool, rows: seq<CopyText.Row>) {
    forall row <- rows :: Format(preformatted, row).Some?
  }

  lemma {:induction false} ImageUsable(preformatted: bool, rows: seq<CopyText.Row>)
    requires AllFormat(preformatted, rows)
    ensures Usable(preformatted, rows, None, |rows|) == (Shards.Image(Formatter(preformatted), rows), None)
  {
    if rows != [] {
      assert rows[0] in rows;
      ImageUsable(preformatted, rows[1..]);
    }
  }

  lemma {:induction false} UsableFormats(preformatted: bool, rows: seq<CopyText.Row>, end: Option<Stop>, cancelAt: int)
    requires Usable(preformatted, rows, end, cancelAt).1.None?
    ensures AllFormat(preformatted, rows)
  {
    if rows != [] {
      UsableFormats(preformatted, rows[1..], end, cancelAt - 1);
      assert rows == [rows[0]] + rows[1..];
    }
  }

  lemma {:induction false} HitByShard(min: int, max: int, concurrency: int, n: nat, key: int) returns (k: nat)
    requires n <= concurrency && concurrency > 1 && Shards.Hits(min, max, concurrency, n, key) > 0
    ensures k < n && Shards.Shard(min, max, concurrency, k).Contains(key)
  {
    k := n - 1;
    if !Shards.Shard(min, max, concurrency, k).Contains(key) {
      k := HitByShard(min, max, concurrency, n - 1, key);
    }
  }

  lemma {:induction false} SelectsRow<T>(table: seq<Shards.Keyed<T>>, range: Shards.Range, i: nat)
    requires i < |table| && range.Contains(table[i].key)
    ensures table[i].row in Shards.Select(table, range)
  {
    if i > 0 {
      SelectsRow(table[1..], range, i - 1);
    }
  }

  lemma {:induction false} RowOfTable<T>(table: seq<Shards.Keyed<T>>, row: T) returns (i: nat)
    requires row in Shards.AllRows(table)
    ensures i < |table| && table[i].row == row
  {
    if table[0].row == row {
      i := 0;
    } else {
      i := RowOfTable(table[1..], row);
      i := i + 1;
    }
  }

  /** A row that cannot be formatted would have stopped the shard that reads it. */
  lemma ShardsFormatTable(job: Job)
    requires Sharded(job)
    requires forall k | 0 <= k < job.concurrency :: Ended(ShardConfig(job), k).None?
    ensures AllFormat(job.preformatted, Shards.AllRows(job.table))
  {
    forall row | row in Shards.AllRows(job.table)
      ensures Format(job.preformatted, row).Some?
    {
      var i := RowOfTable(job.table, row);
      Shards.SafeCovers(job.min, job.max, job.concurrency, job.table[i].key);
      var k := HitByShard(job.min, job.max, job.concurrency, job.concurrency, job.table[i].key);
      SelectsRow(job.table, Shards.Shard(job.min, job.max, job.concurrency, k), i);
      var feed := ShardFeed(ShardConfig(job), k);
      assert Ended(ShardConfig(job), k).None?;
      UsableFormats(feed.preformatted, feed.rows, feed.end, feed.cancelAt);
      assert row in feed.rows;
    }
  }

  lemma ShardHasRows(job: Job, k: nat)
    requires job.concurrency > 1 && k < job.concurrency && Ended(ShardConfig(job), k).None?
    ensures Rows(ShardConfig(job), k)
         == Shards.Image(Formatter(job.preformatted),
                         Shards.Select(job.table, Shards.Shard(job.min, job.max, job.concurrency, k)))
  {
    var feed := ShardFeed(ShardConfig(job), k);
    UsableIsImage(feed.preformatted, feed.rows, feed.end, feed.cancelAt);
    hide Usable;
  }

  /** Every shard's read ends well. */
  predicate NoneEnded(job: Job)
    requires job.concurrency > 1
  {
    forall k | 0 <= k < job.concurrency :: Ended(ShardConfig(job), k).None?
  }

  lemma NotEnded(job: Job, k: nat)
    requires job.concurrency > 1 && k < job.concurrency && NoneEnded(job)
    ensures k < |ShardConfig(job).feeds| && Ended(ShardConfig(job), k).None?
  {
    hide Ended;
  }

  lemma ShardCount(job: Job)
    requires job.concurrency > 1
    ensures |ShardConfig(job).feeds| == job.concurrency
  {
  }

  lemma ReadByLast(job: Job, n: nat)
    requires job.concurrency > 1 && 0 < n <= job.concurrency
    ensures Shards.ReadBy(Formatter(job.preformatted), job.table, job.min, job.max, job.concurrency, n)
         == Shards.ReadBy(Formatter(job.preformatted), job.table, job.min, job.max, job.concurrency, n - 1)
            + multiset(Shards.Image(Formatter(job.preformatted),
                                    Shards.Select(job.table, Shards.Shard(job.min, job.max, job.concurrency, n - 1))))
  {
  }

  lemma NoShards(job: Job)
    requires job.concurrency > 1
    ensures AllOf(ShardConfig(job), 0)
         == Shards.ReadBy(Formatter(job.preformatted), job.table, job.min, job.max, job.concurrency, 0)
  {
    hide ShardConfig;
  }

  lemma {:induction false} ShardsHaveTable(job: Job, n: nat)
    requires job.concurrency > 1 && n <= job.concurrency && NoneEnded(job)
    ensures n <= |ShardConfig(job).feeds|
    ensures AllOf(ShardConfig(job), n)
         == Shards.ReadBy(Formatter(job.preformatted), job.table, job.min, job.max, job.concurrency, n)
  {
    hide *;
    ShardCount(job);
    if n == 0 {
      NoShards(job);
    } else {
      ShardsHaveTable(job, n - 1);
      NotEnded(job, n - 1);
      ShardHasRows(job, n - 1);
      AllOfLast(ShardConfig(job), n);
      ReadByLast(job, n);
    }
  }

  // ----- Acceptance -----

  lemma {:induction false} TargetAccepted(c: Config, procs: seq<Proc>, r: bytes)
    requires |procs| <= |c.feeds| && r in SumBy(procs, CommittedOf)
    requires forall k | 0 <= k < |procs| :: ProcOk(c, k, procs[k])
    ensures c.accepts(r)
  {
    hide ProcOk, CommittedOf;
    var n := |procs| - 1;
    if r in SumBy(procs[..n], CommittedOf) {
      assert forall k | 0 <= k < n :: procs[..n][k] == procs[k];
      TargetAccepted(c, procs[..n], r);
    } else {
      ProcAccepted(c, n, procs[n], r);
    }
  }

  lemma ProcAccepted(c: Config, k: nat, p: Proc, r: bytes)
    requires k < |c.feeds| && ProcOk(c, k, p) && r in CommittedOf(p)
    ensures c.accepts(r)
  {
    CommittedAccepted(c.accepts, p.done, r);
  }

  // ----- Counters -----

  /** All events of the shards, one shard after the other. */
  function AllSent(procs: seq<Proc>): seq<Event> {
    if procs == [] then [] else AllSent(procs[..|procs| - 1]) + procs[|procs| - 1].sent
  }

  lemma {:induction false} AllSentIsSum(procs: seq<Proc>)
    ensures multiset(AllSent(procs)) == SumBy(procs, SentOf)
  {
    if procs != [] {
      AllSentIsSum(procs[..|procs| - 1]);
    }
  }

  /** Under every schedule the counters of a table are the sums over the shards' own events. */
  lemma CountersAreSums(c: Config, schedule: seq<Choice>, table: string)
    ensures var s := Run(c, Init(c), schedule);
            Tally(s.events, table) == Tally(AllSent(s.procs), table)
  {
    InitInv(c);
    RunInv(c, Init(c), schedule);
    var s := Run(c, Init(c), schedule);
    AllSentIsSum(s.procs);
    OrderIrrelevant(s.events, AllSent(s.procs), table);
  }

  lemma {:induction false} WritesTally(table: string, batches: seq<Formatted>)
    ensures Tally(Writes(table, batches), table)
         == ZERO.(rowsWritten := |Flatten(batches)|, bytes := Size(Flatten(batches)))
  {
    if batches != [] {
      var b := batches[0];
      assert Writes(table, batches) == [Write(table, |b|, Size(b))] + Writes(table, batches[1..]);
      WritesTally(table, batches[1..]);
      SizeAppend(b, Flatten(batches[1..]));
      hide Writes, Size;
      TallyAppend([Write(table, |b|, Size(b))], Writes(table, batches[1..]), table);
      TallyOne(Write(table, |b|, Size(b)));
    }
  }

  /** The counters a successful run of one pipeline leaves. */
  lemma SuccessTally(table: string, batches: seq<Formatted>)
    ensures Tally([Start(table)] + Writes(table, batches) + [End(table)], table)
         == ZERO.(rowsWritten := |Flatten(batches)|, bytes := Size(Flatten(batches)))
  {
    hide *;
    WritesTally(table, batches);
    TallyAppend([Start(table)] + Writes(table, batches), [End(table)], table);
    TallyAppend([Start(table)], Writes(table, batches), table);
    TallyOne(Start(table));
    TallyOne(End(table));
    AddNothing(Tally(Writes(table, batches), table), table);
  }

  lemma TallyOne(e: Event)
    ensures Tally([e], e.table) == Delta(e)
  {
    assert Tally([e][1..], e.table) == ZERO;
  }

  lemma AddNothing(s: Stats, table: string)
    ensures Add(Add(Delta(Start(table)), s), Delta(End(table))) == s
  {
  }

  /** All rows of the shards, one shard after the other. */
  function ShardRows(c: Config, n: nat): Formatted
    requires n <= |c.feeds|
  {
    if n == 0 then [] else ShardRows(c, n - 1) + Rows(c, n - 1)
  }

  lemma MultisetAppend<T>(a: seq<T>, b: seq<T>)
    ensures multiset(a + b) == multiset(a) + multiset(b)
  {
  }

  lemma {:induction false} ShardRowsAreAll(c: Config, n: nat)
    requires n <= |c.feeds|
    ensures multiset(ShardRows(c, n)) == AllOf(c, n)
  {
    hide Rows;
    if n > 0 {
      ShardRowsAreAll(c, n - 1);
      MultisetAppend(ShardRows(c, n - 1), Rows(c, n - 1));
    }
  }

  lemma FinishedTally(c: Config, k: nat, p: Proc)
    requires k < |c.feeds| && ProcOk(c, k, p) && p.pc == Finished(None)
    ensures Tally(p.sent, c.table) == ZERO.(rowsWritten := |Rows(c, k)|, bytes := Size(Rows(c, k)))
    ensures Ended(c, k).None?
  {
    BatchesExactlyGreedy(c.limits, Rows(c, k), p.done);
    SuccessTally(c.table, p.done);
    assert p.sent == [Start(c.table)] + Writes(c.table, p.done) + [] + [End(c.table)];
    assert [Start(c.table)] + Writes(c.table, p.done) + [] == [Start(c.table)] + Writes(c.table, p.done);
  }

  lemma LastSent(procs: seq<Proc>)
    requires procs != []
    ensures AllSent(procs) == AllSent(procs[..|procs| - 1]) + procs[|procs| - 1].sent
  {
  }

  /** The counters of a table whose rows are those of the first n shards. */
  function RowsTally(c: Config, n: nat): Stats
    requires n <= |c.feeds|
  {
    ZERO.(rowsWritten := |ShardRows(c, n)|, bytes := Size(ShardRows(c, n)))
  }

  lemma RowsTallyIs(c: Config, n: nat)
    requires 0 < n <= |c.feeds|
    ensures RowsTally(c, n)
         == Add(RowsTally(c, n - 1), ZERO.(rowsWritten := |Rows(c, n - 1)|, bytes := Size(Rows(c, n - 1))))
  {
    hide Rows, Size;
    SizeAppend(ShardRows(c, n - 1), Rows(c, n - 1));
  }

  predicate AllDone(c: Config, procs: seq<Proc>) {
    |procs| <= |c.feeds| && forall k | 0 <= k < |procs| :: ProcOk(c, k, procs[k]) && procs[k].pc == Finished(None)
  }

  lemma AllDoneParts(c: Config, procs: seq<Proc>)
    requires AllDone(c, procs) && procs != []
    ensures var n := |procs| - 1;
            n < |c.feeds| && AllDone(c, procs[..n]) && ProcOk(c, n, procs[n]) && procs[n].pc == Finished(None)
  {
    hide ProcOk;
    assert forall k | 0 <= k < |procs| - 1 :: procs[..|procs| - 1][k] == procs[k];
  }

  lemma {:induction false} FinishedTallies(c: Config, procs: seq<Proc>)
    requires AllDone(c, procs)
    ensures |procs| <= |c.feeds|
    ensures Tally(AllSent(procs), c.table) == RowsTally(c, |procs|)
  {
    if procs != [] {
      var n := |procs| - 1;
      AllDoneParts(c, procs);
      hide *;
      FinishedTallies(c, procs[..n]);
      FinishedTally(c, n, procs[n]);
      RowsTallyIs(c, n + 1);
      LastSent(procs);
      TallyAppend(AllSent(procs[..n]), procs[n].sent, c.table);
    } else {
      hide ProcOk, Rows;
    }
  }

  /** Size depends on the rows, not on their order. */
  lemma {:induction false} SizeOfMultiset(a: Formatted, b: Formatted)
    requires multiset(a) == multiset(b)
    ensures Size(a) == Size(b) && |a| == |b|
  {
    assert |multiset(a)| == |a| && |multiset(b)| == |b|;
    if a != [] {
      assert a[0] in multiset(b);
      var i :| 0 <= i < |b| && b[i] == a[0];
      var x, y := b[..i], b[i + 1..];
      assert b == x + [a[0]] + y;
      Multisets.SameRest(a, x, y);
      SizeOfMultiset(a[1..], x + y);
      SizeAppend(x, y);
      SizeAppend(x + [a[0]], y);
      SizeSnoc(x, a[0]);
    }
  }

  // ----- Parallel and sequential copy -----

  predicate Sharded(job: Job) {
    && Shards.Arguments(job.min, job.max, job.concurrency)
    && Shards.Safe(job.min, job.max, job.concurrency)
    && forall i | 0 <= i < |job.table| :: job.min <= job.table[i].key <= job.max
  }

  /** The shards' rows are the table's rows. */
  lemma ShardsAreTable(job: Job)
    requires Sharded(job) && NoneEnded(job)
    ensures AllOf(ShardConfig(job), job.concurrency) == multiset(TableRows(job))
  {
    ShardsHaveTable(job, job.concurrency);
    Shards.ShardsReadTable(Formatter(job.preformatted), job.table, job.min, job.max, job.concurrency);
  }

  /** What a successful parallel run leaves behind. */
  lemma ParallelResult(job: Job, schedule: seq<Choice>)
    requires Sharded(job)
    requires AllSucceeded(Run(ShardConfig(job), Init(ShardConfig(job)), schedule))
    requires FramedRows(TableRows(job))
    ensures var s, rows := Run(ShardConfig(job), Init(ShardConfig(job)), schedule), TableRows(job);
            && s.target == multiset(rows)
            && (forall i | 0 <= i < |rows| :: job.accepts(rows[i]))
            && Tally(s.events, job.name) == ZERO.(rowsWritten := |rows|, bytes := Size(rows))
    ensures forall k | 0 <= k < job.concurrency :: Ended(ShardConfig(job), k).None?
  {
    var c := ShardConfig(job);
    var s, rows := Run(c, Init(c), schedule), TableRows(job);
    hide *;
    ShardCount(job);
    ShardedIs(job);
    EndOfRun(c, schedule);
    AreNoneEnded(job);
    ShardsAreTable(job);
    TargetIsTable(c, s, rows);
    CountersAreSums(c, schedule, job.name);
    FinishedTallies(c, s.procs);
    TallyOfTable(c, |c.feeds|, rows);
  }

  lemma AreNoneEnded(job: Job)
    requires Sharded(job) && |ShardConfig(job).feeds| == job.concurrency
    requires forall k | 0 <= k < job.concurrency :: Ended(ShardConfig(job), k).None?
    ensures NoneEnded(job)
  {
  }

  lemma ShardedIs(job: Job)
    requires Sharded(job)
    ensures job.concurrency > 1 && ShardConfig(job).accepts == job.accepts && ShardConfig(job).table == job.name
  {
  }

  /** After a run in which every shard succeeded. */
  lemma EndOfRun(c: Config, schedule: seq<Choice>)
    requires AllSucceeded(Run(c, Init(c), schedule))
    ensures var s := Run(c, Init(c), schedule);
            |s.procs| == |c.feeds| && AllDone(c, s.procs) && s.target == SumBy(s.procs, CommittedOf)
    ensures forall k | 0 <= k < |c.feeds| :: Ended(c, k).None?
  {
    InitInv(c);
    RunInv(c, Init(c), schedule);
    var s := Run(c, Init(c), schedule);
    hide *;
    InvFinished(c, s);
    forall k | 0 <= k < |c.feeds|
      ensures Ended(c, k).None?
    {
      FinishedAt(c, s.procs, k);
    }
  }

  lemma InvFinished(c: Config, s: State)
    requires Inv(c, s) && AllSucceeded(s)
    ensures |s.procs| == |c.feeds| && AllDone(c, s.procs) && s.target == SumBy(s.procs, CommittedOf)
  {
    hide ProcOk, CommittedOf, SentOf, ReportedOf;
  }

  lemma FinishedAt(c: Config, procs: seq<Proc>, k: nat)
    requires AllDone(c, procs) && k < |procs|
    ensures k < |c.feeds| && Ended(c, k).None?
  {
    hide ProcOk, Ended;
    FinishedTally(c, k, procs[k]);
  }

  lemma TargetIsTable(c: Config, s: State, rows: Formatted)
    requires |s.procs| == |c.feeds| && AllDone(c, s.procs) && s.target == SumBy(s.procs, CommittedOf)
    requires AllOf(c, |c.feeds|) == multiset(rows) && FramedRows(rows)
    ensures s.target == multiset(rows) && forall i | 0 <= i < |rows| :: c.accepts(rows[i])
  {
    AllRowsFramed(c, |c.feeds|, rows);
    hide AllOf, SumBy, ProcOk, CommittedOf, FramedRows, Rows;
    SumCommitted(c, s.procs);
    forall i | 0 <= i < |rows|
      ensures c.accepts(rows[i])
    {
      assert rows[i] in multiset(rows);
      TargetAccepted(c, s.procs, rows[i]);
    }
  }

  lemma TallyOfTable(c: Config, n: nat, rows: Formatted)
    requires n <= |c.feeds| && AllOf(c, n) == multiset(rows)
    ensures RowsTally(c, n) == ZERO.(rowsWritten := |rows|, bytes := Size(rows))
  {
    hide AllOf, ShardRows, Size;
    ShardRowsAreAll(c, n);
    SizeOfMultiset(ShardRows(c, n), rows);
  }

  lemma SubsetFramed(own: Formatted, rows: Formatted)
    requires multiset(own) <= multiset(rows) && FramedRows(rows)
    ensures FramedRows(own)
  {
    hide Lines.Framed;
    forall i | 0 <= i < |own|
      ensures Lines.Framed(own[i])
    {
      assert own[i] in multiset(own);
      assert own[i] in multiset(rows);
      var j :| 0 <= j < |rows| && rows[j] == own[i];
    }
  }

  /** If all rows of the shards are among framed rows, each shard's rows are framed. */
  lemma {:induction false} AllRowsFramed(c: Config, n: nat, rows: Formatted)
    requires n <= |c.feeds| && AllOf(c, n) <= multiset(rows) && FramedRows(rows)
    ensures forall k | 0 <= k < n :: FramedRows(Rows(c, k))
  {
    hide FramedRows, Rows;
    if n > 0 {
      AllRowsFramed(c, n - 1, rows);
      SubsetFramed(Rows(c, n - 1), rows);
    }
  }

  /** What the sequential copy of the same table leaves behind when every row is acceptable. */
  lemma SequentialResult(job: Job)
    requires AllFormat(job.preformatted, Shards.AllRows(job.table))
    requires forall i | 0 <= i < |TableRows(job)| ::
               Lines.Framed(TableRows(job)[i]) && job.accepts(TableRows(job)[i])
    ensures var report, rows := Expected(job.accepts, job.limits, SequentialFeed(job)), TableRows(job);
            && report.stop.None?
            && Committed(report.delivered) == multiset(rows)
            && Tally([Start(job.name)] + Trace(job.name, report), job.name)
               == ZERO.(rowsWritten := |rows|, bytes := Size(rows))
  {
    var rows := TableRows(job);
    var batches := Batches(job.limits, rows);
    ImageUsable(job.preformatted, Shards.AllRows(job.table));
    AcceptedRun(job.accepts, job.limits, SequentialFeed(job), rows);
    SuccessTrace(job.name, batches);
    SuccessTally(job.name, batches);
  }

  lemma AcceptedRun(accepts: bytes -> bool, limits: Limits, feed: Feed, rows: Formatted)
    requires Usable(feed.preformatted, feed.rows, feed.end, feed.cancelAt) == (rows, None)
    requires forall i | 0 <= i < |rows| :: Lines.Framed(rows[i]) && accepts(rows[i])
    ensures Expected(accepts, limits, feed) == Report(Batches(limits, rows), None, None)
    ensures Committed(Batches(limits, rows)) == multiset(rows)
    ensures Flatten(Batches(limits, rows)) == rows
  {
    var batches := Batches(limits, rows);
    BatchesExactlyGreedy(limits, rows, batches);
    AllBatchesAccepted(accepts, batches);
    CommittedRows(batches);
  }

  lemma SuccessTrace(table: string, batches: seq<Formatted>)
    ensures [Start(table)] + Trace(table, Report(batches, None, None))
         == [Start(table)] + Writes(table, batches) + [End(table)]
  {
    hide Writes;
    assert Writes(table, batches) + [] == Writes(table, batches);
  }

  /** Encoded rows are always framed. */
  lemma {:induction false} EncodedImage(rows: seq<CopyText.Row>)
    ensures FramedRows(Shards.Image(Formatter(false), rows))
  {
    if rows != [] {
      Lines.EncodedRowFramed(rows[0]);
      EncodedImage(rows[1..]);
      hide Lines.Framed, CopyText.EncodeRow;
    }
  }

  /**
   Every schedule of the shard pipelines in which all of them succeed leaves the target with the same
   multiset of rows as the sequential copy, which then succeeds as well, and the monitor with the same
   counters.
   */
  lemma ParallelEqualsSequential(job: Job, schedule: seq<Choice>)
    requires Sharded(job)
    requires job.preformatted ==> FramedRows(TableRows(job))
    requires AllSucceeded(Run(ShardConfig(job), Init(ShardConfig(job)), schedule))
    ensures var s := Run(ShardConfig(job), Init(ShardConfig(job)), schedule);
            var report := Expected(job.accepts, job.limits, SequentialFeed(job));
            && report.stop.None?
            && s.target == Committed(report.delivered)
            && Tally(s.events, job.name) == Tally([Start(job.name)] + Trace(job.name, report), job.name)
            && Tally(s.events, job.name) == ZERO.(rowsWritten := |TableRows(job)|, bytes := Size(TableRows(job)))
  {
    if !job.preformatted {
      EncodedImage(Shards.AllRows(job.table));
    }
    ParallelResult(job, schedule);
    ShardsFormatTable(job);
    ImageUsable(job.preformatted, Shards.AllRows(job.table));
    SequentialResult(job);
  }

  // ----- When a parallel copy succeeds -----

  lemma {:induction false} SelectsFromTable<T>(table: seq<Shards.Keyed<T>>, range: Shards.Range)
    ensures forall row <- Shards.Select(table, range) :: row in Shards.AllRows(table)
  {
    if table != [] {
      SelectsFromTable(table[1..], range);
    }
  }

  lemma {:induction false} ImageHas<T, U>(f: T -> U, rows: seq<T>, row: T)
    requires row in rows
    ensures f(row) in Shards.Image(f, rows)
  {
    if rows[0] != row {
      ImageHas(f, rows[1..], row);
    }
  }

  lemma {:induction false} ImageWithin<T, U>(f: T -> U, a: seq<T>, b: seq<T>)
    requires forall row <- a :: row in b
    ensures forall x <- Shards.Image(f, a) :: x in Shards.Image(f, b)
  {
    if a != [] {
      assert a[0] in a;
      ImageHas(f, b, a[0]);
      ImageWithin(f, a[1..], b);
    }
  }

  /** A successful sequential run has formatted every row, and the target accepts each of them. */
  lemma SuccessAccepts(accepts: bytes -> bool, limits: Limits, preformatted: bool, rows: seq<CopyText.Row>)
    requires Expected(accepts, limits, WholeFeed(preformatted, rows)).stop.None?
    ensures AllFormat(preformatted, rows)
    ensures var image := Shards.Image(Formatter(preformatted), rows);
            FramedRows(image) ==> forall x <- image :: accepts(x)
  {
    var feed := WholeFeed(preformatted, rows);
    var u := Usable(preformatted, rows, None, |rows|);
    DeliveredIsBatchPrefix(accepts, limits, feed);
    UsableEnd(preformatted, rows, None, |rows|);
    UsableFormats(preformatted, rows, None, |rows|);
    UsableIsImage(preformatted, rows, None, |rows|);
    var batches := Batches(limits, u.0);
    BatchesExactlyGreedy(limits, u.0, batches);
    assert AcceptedPrefix(accepts, batches) == |batches|;
    hide Usable, Batches, Expected, AcceptedPrefix;
    if FramedRows(u.0) {
      AcceptedRowByRow(accepts, batches);
    }
  }

  /** The pipeline alone succeeds on part of the rows if it succeeds on all. */
  lemma PartSucceeds(accepts: bytes -> bool, limits: Limits, preformatted: bool, part: seq<CopyText.Row>,
                     rows: seq<CopyText.Row>)
    requires (forall row <- part :: row in rows) && FramedRows(Shards.Image(Formatter(preformatted), rows))
    requires Expected(accepts, limits, WholeFeed(preformatted, rows)).stop.None?
    ensures Expected(accepts, limits, WholeFeed(preformatted, part)).stop.None?
  {
    var f := Formatter(preformatted);
    var image, own := Shards.Image(f, rows), Shards.Image(f, part);
    SuccessAccepts(accepts, limits, preformatted, rows);
    ImageWithin(f, part, rows);
    assert AllFormat(preformatted, part);
    ImageUsable(preformatted, part);
    hide Expected, Lines.Framed;
    forall i | 0 <= i < |own|
      ensures Lines.Framed(own[i]) && accepts(own[i])
    {
      assert own[i] in image;
      var j :| 0 <= j < |image| && image[j] == own[i];
    }
    AcceptedRun(accepts, limits, WholeFeed(preformatted, part), own);
  }

  lemma ShardFeedIs(job: Job, k: nat)
    requires job.concurrency > 1 && k < job.concurrency
    ensures var rows := Shards.Select(job.table, Shards.Shard(job.min, job.max, job.concurrency, k));
            ShardFeed(ShardConfig(job), k) == WholeFeed(job.preformatted, rows)
    ensures |ShardConfig(job).feeds| == job.concurrency && ShardConfig(job).limits == job.limits
    ensures ShardConfig(job).accepts == job.accepts
  {
  }

  /**
   When nothing from outside disturbs it, a parallel copy in which all shards have finished has succeeded if and
   only if the sequential copy of the table succeeds.
   */
  lemma SucceedsAsSequential(job: Job, schedule: seq<Choice>)
    requires Sharded(job) && ShardRuns.Undisturbed(schedule)
    requires job.preformatted ==> FramedRows(TableRows(job))
    requires AllFinished(Run(ShardConfig(job), Init(ShardConfig(job)), schedule))
    ensures AllSucceeded(Run(ShardConfig(job), Init(ShardConfig(job)), schedule))
       <==> Expected(job.accepts, job.limits, SequentialFeed(job)).stop.None?
  {
    var c := ShardConfig(job);
    if !job.preformatted {
      EncodedImage(Shards.AllRows(job.table));
    }
    ShardRuns.SucceedsIff(c, schedule);
    assert SequentialFeed(job) == WholeFeed(job.preformatted, Shards.AllRows(job.table));
    assert FramedRows(Shards.Image(Formatter(job.preformatted), Shards.AllRows(job.table)));
    ShardedIs(job);
    hide *;
    if AllSucceeded(Run(c, Init(c), schedule)) {
      ParallelEqualsSequential(job, schedule);
    } else if Expected(job.accepts, job.limits, SequentialFeed(job)).stop.None? {
      ShardCount(job);
      forall k | 0 <= k < |c.feeds|
        ensures Expected(c.accepts, c.limits, ShardFeed(c, k)).stop.None?
      {
        var range := Shards.Shard(job.min, job.max, job.concurrency, k);
        ShardFeedIs(job, k);
        SelectsFromTable(job.table, range);
        PartSucceeds(job.accepts, job.limits, job.preformatted, Shards.Select(job.table, range),
                     Shards.AllRows(job.table));
      }
    }
  }
}
