/**
 Copying all tables of a source, one after the other (internal/orchestrator/orchestrator.go): each table
 by its shards or by a single pipeline.  What a migration leaves behind does not depend on which.
 */
module Migration {
  import opened Bytes
  import opened Decimal
  import opened Monitor
  import opened Orchestrator
  import CopyBatch
  import CopyText
  import ParallelCopy
  import Pipeline
  import ShardRuns
  import Shards

  type KeyedRow = Shards.Keyed<CopyText.Row>

  // ----- One table -----

  /** What the surroundings do to a single pipeline: its connection, its source, the row of a cancellation. */
  datatype Luck = Luck(connected: bool, end: Option<Pipeline.Stop>, cancel: Option<nat>)

  const NO_FAULT := Luck(true, None, None)

  /**
   A table with its rows; whether it can be made active and its key range read; and what happens while it
   is copied: the schedule of its shards, or the luck of a single pipeline.
   */
  datatype Table = Table(
    name: string, accepts: bytes -> bool, preformatted: bool, rows: seq<KeyedRow>,
    hasKey: bool, active: bool, ranged: bool, schedule: seq<Choice>, luck: Luck)

  datatype Failure = NotActive | NoRange | Single(stop: Pipeline.Stop) | Sharded(err: Err)

  /** What the copy of one table commits and reports, and how it ends. */
  datatype Result = Result(target: multiset<bytes>, events: seq<Event>, failure: Option<Failure>)

  /** Least and greatest key of a table that has rows. */
  function KeyBounds(rows: seq<KeyedRow>): (b: Option<Shards.KeyRange>)
    ensures b.None? <==> rows == []
    ensures b.Some? ==> forall i | 0 <= i < |rows| :: b.value.min <= rows[i].key <= b.value.max
    ensures b.Some? ==> exists i, j | 0 <= i < |rows| && 0 <= j < |rows| ::
                          rows[i].key == b.value.min && rows[j].key == b.value.max
  {
    if rows == [] then None
    else if |rows| == 1 then Some(Shards.KeyRange(rows[0].key, rows[0].key))
    else
      var k, b := rows[0].key, KeyBounds(rows[1..]).value;
      Some(Shards.KeyRange(if k < b.min then k else b.min, if k > b.max then k else b.max))
  }

  function JobOf(limits: Pipeline.Limits, concurrency: int, t: Table): ParallelCopy.Job {
    var bounds := if t.rows == [] then Shards.KeyRange(0, 0) else KeyBounds(t.rows).value;
    ParallelCopy.Job(t.accepts, limits, t.name, t.preformatted, t.rows, bounds.min, bounds.max, concurrency)
  }

  function SingleFeed(t: Table): Pipeline.Feed {
    var rows := Shards.AllRows(t.rows);
    Pipeline.Feed(t.preformatted, rows, t.luck.end, if t.luck.cancel.Some? then t.luck.cancel.value else |rows|)
  }

  function CopySingle(limits: Pipeline.Limits, t: Table): Result {
    if !t.luck.connected then Result(multiset{}, [Start(t.name)], Some(Single(Pipeline.NoConnection)))
    else
      var report := Pipeline.Expected(t.accepts, limits, SingleFeed(t));
      Result(Pipeline.Committed(report.delivered), [Start(t.name)] + Pipeline.Trace(t.name, report),
             match report.stop case None => None case Some(stop) => Some(Single(stop)))
  }

  /** The copy waits until the goroutines of all shards have returned. */
  function AfterShards(limits: Pipeline.Limits, concurrency: int, t: Table): State
    requires concurrency > 1
  {
    var c := ParallelCopy.ShardConfig(JobOf(limits, concurrency, t));
    Run(c, Init(c), WaitForAll(c, t.schedule))
  }

  function CopyShards(limits: Pipeline.Limits, concurrency: int, t: Table): Result
    requires concurrency > 1
  {
    var s := AfterShards(limits, concurrency, t);
    Result(s.target, s.events, match SelectError(s.errCh, None) case None => None case Some(e) => Some(Sharded(e)))
  }

  /** A table is copied by shards when more than one is asked for and it has a key and rows. */
  predicate InShards(concurrency: int, t: Table) { concurrency > 1 && t.hasKey && t.rows != [] }

  function Copy(limits: Pipeline.Limits, concurrency: int, t: Table): Result {
    if !t.active then Result(multiset{}, [], Some(NotActive))
    else if concurrency > 1 && t.hasKey && !t.ranged then Result(multiset{}, [], Some(NoRange))
    else if InShards(concurrency, t) then CopyShards(limits, concurrency, t)
    else CopySingle(limits, t)
  }

  /** The tables in order, up to the first that fails. */
  function CopyAll(limits: Pipeline.Limits, concurrency: int, tables: seq<Table>): seq<Result> {
    if tables == [] then []
    else
      var r := Copy(limits, concurrency, tables[0]);
      [r] + if r.failure.Some? then [] else CopyAll(limits, concurrency, tables[1..])
  }

  predicate Succeeded(tables: seq<Table>, results: seq<Result>) {
    |results| == |tables| && forall i | 0 <= i < |results| :: results[i].failure.None?
  }

  // ----- The loop over the tables -----

  method RunSingle(limits: Pipeline.Limits, t: Table) returns (r: Result)
    ensures r == CopySingle(limits, t)
  {
    var writer := new CopyBatch.CopyWriter(t.accepts);
    var pipe := new Pipeline.Pipeline(limits, t.name, writer);
    var stop := pipe.Run(SingleFeed(t), t.luck.connected);
    hide Pipeline.Expected, Pipeline.Committed, Pipeline.Trace;
    assert [] + [Start(t.name)] == [Start(t.name)];
    return Result(writer.committed, pipe.events, match stop case None => None case Some(s) => Some(Single(s)));
  }

  method RunShards(limits: Pipeline.Limits, concurrency: int, t: Table) returns (r: Result)
    requires concurrency > 1
    ensures r == CopyShards(limits, concurrency, t)
  {
    hide Run, SelectError;
    var s := AfterShards(limits, concurrency, t);
    var err := ReturnedError(s.errCh);
    return Result(s.target, s.events, match err case None => None case Some(e) => Some(Sharded(e)));
  }

  method CopyTable(limits: Pipeline.Limits, concurrency: int, t: Table) returns (r: Result)
    ensures r == Copy(limits, concurrency, t)
  {
    hide CopySingle, CopyShards;
    if !t.active {
      return Result(multiset{}, [], Some(NotActive));
    }
    if concurrency > 1 && t.hasKey && !t.ranged {
      return Result(multiset{}, [], Some(NoRange));
    }
    var shards := Shards.ConcurrencySupport(t.hasKey, KeyBounds(t.rows), concurrency);
    if |shards| > 0 {
      r := RunShards(limits, concurrency, t);
    } else {
      r := RunSingle(limits, t);
    }
  }

  method CopyAllTables(limits: Pipeline.Limits, concurrency: int, tables: seq<Table>)
    returns (results: seq<Result>, failure: Option<Failure>)
    ensures results == CopyAll(limits, concurrency, tables)
    ensures failure.None? <==> Succeeded(tables, results)
    ensures failure.Some? ==> results != [] && results[|results| - 1].failure == failure
  {
    hide Copy;
    results := [];
    assert tables[0..] == tables;
    for i := 0 to |tables|
      invariant |results| == i && forall j | 0 <= j < i :: results[j].failure.None?
      invariant results + CopyAll(limits, concurrency, tables[i..]) == CopyAll(limits, concurrency, tables)
    {
      assert tables[i..][1..] == tables[i + 1..];
      var r := CopyTable(limits, concurrency, tables[i]);
      assert results + ([r] + CopyAll(limits, concurrency, tables[i + 1..]))
          == results + [r] + CopyAll(limits, concurrency, tables[i + 1..]);
      results := results + [r];
      if r.failure.Some? {
        assert results[i] == r;
        return results, r.failure;
      }
    }
    return results, None;
  }

  // ----- A failure stops everything after it -----

  /** Exactly the tables up to the first that fails are copied, each as if it were alone. */
  lemma {:induction false} StopsAtFirstFailure(limits: Pipeline.Limits, concurrency: int, tables: seq<Table>)
    ensures var rs := CopyAll(limits, concurrency, tables);
            && |rs| <= |tables|
            && (forall i | 0 <= i < |rs| :: rs[i] == Copy(limits, concurrency, tables[i]))
            && (forall i | 0 <= i < |rs| - 1 :: rs[i].failure.None?)
            && (|rs| < |tables| ==> rs != [] && rs[|rs| - 1].failure.Some?)
  {
    hide Copy;
    if tables != [] {
      StopsAtFirstFailure(limits, concurrency, tables[1..]);
    }
  }

  // ----- Shards make no difference -----

  /**
   The conditions under which a table copied by shards is compared: its key range passes the two tests on
   int64, rows that come preformatted are framed, and nothing befalls the single pipeline.
   */
  predicate Comparable(limits: Pipeline.Limits, concurrency: int, t: Table)
    requires concurrency > 1
  {
    InShards(concurrency, t) ==>
      var job := JobOf(limits, concurrency, t);
      && Shards.Arguments(job.min, job.max, concurrency) && Shards.Safe(job.min, job.max, concurrency)
      && (t.preformatted ==> FramedRows(ParallelCopy.TableRows(job)))
      && t.luck == NO_FAULT
  }

  lemma JobSharded(limits: Pipeline.Limits, concurrency: int, t: Table)
    requires concurrency > 1 && InShards(concurrency, t) && Comparable(limits, concurrency, t)
    ensures ParallelCopy.Sharded(JobOf(limits, concurrency, t))
    ensures t.preformatted ==> FramedRows(ParallelCopy.TableRows(JobOf(limits, concurrency, t)))
  {
    hide FramedRows, ParallelCopy.TableRows;
  }

  lemma SameFeed(limits: Pipeline.Limits, concurrency: int, t: Table)
    requires t.luck == NO_FAULT
    ensures SingleFeed(t) == ParallelCopy.SequentialFeed(JobOf(limits, concurrency, t))
  {
  }

  /** Only events of its own table are sent while a table is copied. */
  predicate Only(events: seq<Event>, table: string) { forall i | 0 <= i < |events| :: events[i].table == table }

  lemma {:induction false} RunOnly(c: Config, s: State, schedule: seq<Choice>)
    requires |s.procs| == |c.feeds| && Only(s.events, c.table)
    ensures Only(Run(c, s, schedule).events, c.table)
    decreases |schedule|
  {
    if schedule != [] {
      StepOnly(c, s, schedule[0]);
      hide Step;
      RunOnly(c, Step(c, s, schedule[0]), schedule[1..]);
    }
  }

  lemma StepOnly(c: Config, s: State, choice: Choice)
    requires |s.procs| == |c.feeds| && Only(s.events, c.table)
    ensures Only(Step(c, s, choice).events, c.table)
    ensures |Step(c, s, choice).procs| == |c.feeds|
  {
    hide Pipeline.Format, Pipeline.Full, Pipeline.Accepted, Size;
  }

  lemma SingleOnly(limits: Pipeline.Limits, t: Table)
    ensures Only(CopySingle(limits, t).events, t.name)
  {
    hide Pipeline.Expected, Size;
  }

  lemma {:induction false} OnlyTally(events: seq<Event>, table: string, name: string)
    requires Only(events, table) && name != table
    ensures Tally(events, name) == ZERO
  {
    if events != [] {
      OnlyTally(events[1..], table, name);
    }
  }

  /** Both ways of copying a table leave the same rows, and the same counters under every name. */
  ghost predicate Alike(a: Result, b: Result) {
    a.failure == b.failure && a.target == b.target && forall name :: Tally(a.events, name) == Tally(b.events, name)
  }

  lemma ShardsAlike(limits: Pipeline.Limits, concurrency: int, t: Table)
    requires concurrency > 1 && InShards(concurrency, t) && Comparable(limits, concurrency, t)
    requires CopyShards(limits, concurrency, t).failure.None?
    ensures Alike(CopyShards(limits, concurrency, t), CopySingle(limits, t))
  {
    var job := JobOf(limits, concurrency, t);
    var c := ParallelCopy.ShardConfig(job);
    var a, b := CopyShards(limits, concurrency, t), CopySingle(limits, t);
    var schedule := WaitForAll(c, t.schedule);
    assert c.table == t.name && t.luck.connected;
    assert a == Result(Run(c, Init(c), schedule).target, Run(c, Init(c), schedule).events, None);
    assert SelectError(Run(c, Init(c), schedule).errCh, None).None?;
    var report := Pipeline.Expected(t.accepts, limits, SingleFeed(t));
    assert b == Result(Pipeline.Committed(report.delivered), [Start(t.name)] + Pipeline.Trace(t.name, report),
                       match report.stop case None => None case Some(stop) => Some(Single(stop)));
    assert job.accepts == t.accepts && job.limits == limits && job.name == t.name;
    InitOnly(c);
    SingleOnly(limits, t);
    hide *;
    JobSharded(limits, concurrency, t);
    SameFeed(limits, concurrency, t);
    WaitFinishes(c, t.schedule);
    ErrorsOverAllSchedules(c, schedule);
    ParallelCopy.ParallelEqualsSequential(job, schedule);
    RunOnly(c, Init(c), schedule);
    forall name
      ensures Tally(a.events, name) == Tally(b.events, name)
    {
      if name != t.name {
        OnlyTally(a.events, t.name, name);
        OnlyTally(b.events, t.name, name);
      }
    }
    AlikeIs(a, b);
  }

  lemma AlikeIs(a: Result, b: Result)
    requires a.failure == b.failure && a.target == b.target
    requires forall name :: Tally(a.events, name) == Tally(b.events, name)
    ensures Alike(a, b)
  {
  }

  lemma InitOnly(c: Config)
    ensures |Init(c).procs| == |c.feeds| && Only(Init(c).events, c.table)
  {
  }

  lemma CopyAlike(limits: Pipeline.Limits, concurrency: int, t: Table)
    requires concurrency > 1 && Comparable(limits, concurrency, t)
    requires Copy(limits, concurrency, t).failure.None?
    ensures Alike(Copy(limits, concurrency, t), Copy(limits, 1, t))
  {
    hide CopyShards, CopySingle, Comparable;
    if InShards(concurrency, t) {
      ShardsAlike(limits, concurrency, t);
    }
  }

  /** Everything the monitor receives. */
  function AllEvents(results: seq<Result>): seq<Event> {
    if results == [] then [] else results[0].events + AllEvents(results[1..])
  }

  /** The totals of the summary are a matter of the counters of each name. */
  lemma TotalsFromTallies(a: seq<Event>, b: seq<Event>)
    requires forall name :: Tally(a, name) == Tally(b, name)
    ensures TableTotal(a) == TableTotal(b)
  {
    var order := FirstSeen(a + b);
    FirstSeenExact(a + b);
    assert forall i | 0 <= i < |a| :: (a + b)[i] == a[i];
    assert forall i | 0 <= i < |b| :: (a + b)[|a| + i] == b[i];
    forall i | 0 <= i < |a|
      ensures a[i].table in order
    {
      assert (a + b)[i].table == a[i].table;
    }
    forall i | 0 <= i < |b|
      ensures b[i].table in order
    {
      assert (a + b)[|a| + i].table == b[i].table;
    }
    OrderTotalIsTableTotal(a, order);
    OrderTotalIsTableTotal(b, order);
    SameOrderTotal(a, b, order);
  }

  lemma {:induction false} SameOrderTotal(a: seq<Event>, b: seq<Event>, order: seq<string>)
    requires forall name :: Tally(a, name) == Tally(b, name)
    ensures OrderTotal(a, order) == OrderTotal(b, order)
  {
    if order != [] {
      SameOrderTotal(a, b, order[..|order| - 1]);
    }
  }

  /**
   A migration in which all tables are copied, whichever of them by shards and under whatever schedules,
   leaves what the migration without shards leaves: it too copies all tables, the target of each holds the
   same rows, and the monitor shows the same counters under every name and the same totals.
   */
  lemma {:induction false} ShardsMakeNoDifference(limits: Pipeline.Limits, concurrency: int, tables: seq<Table>)
    requires concurrency > 1 && forall i | 0 <= i < |tables| :: Comparable(limits, concurrency, tables[i])
    requires Succeeded(tables, CopyAll(limits, concurrency, tables))
    ensures var a, b := CopyAll(limits, concurrency, tables), CopyAll(limits, 1, tables);
            && Succeeded(tables, b)
            && (forall i | 0 <= i < |tables| :: a[i].target == b[i].target)
            && (forall name :: Tally(AllEvents(a), name) == Tally(AllEvents(b), name))
            && TableTotal(AllEvents(a)) == TableTotal(AllEvents(b))
  {
    hide Copy, Comparable;
    var a, b := CopyAll(limits, concurrency, tables), CopyAll(limits, 1, tables);
    if tables != [] {
      var t := tables[0];
      var rest := CopyAll(limits, concurrency, tables[1..]);
      assert a[0].failure.None?;
      assert a == [Copy(limits, concurrency, t)] + rest;
      assert forall i | 0 <= i < |rest| :: rest[i] == a[i + 1];
      CopyAlike(limits, concurrency, t);
      ShardsMakeNoDifference(limits, concurrency, tables[1..]);
      assert b == [Copy(limits, 1, t)] + CopyAll(limits, 1, tables[1..]);
      forall name
        ensures Tally(AllEvents(a), name) == Tally(AllEvents(b), name)
      {
        TallyAppend(a[0].events, AllEvents(a[1..]), name);
        TallyAppend(b[0].events, AllEvents(b[1..]), name);
      }
    }
    TotalsFromTallies(AllEvents(a), AllEvents(b));
  }

  // ----- When a table is copied -----

  /**
   A table that cannot be made active, or whose key range cannot be read though it is needed, is left as it is;
   without a connection its start is all that is reported; a cancellation before its last row fails it.
   */
  lemma TableFails(limits: Pipeline.Limits, concurrency: int, t: Table)
    ensures !t.active ==> Copy(limits, concurrency, t) == Result(multiset{}, [], Some(NotActive))
    ensures t.active && concurrency > 1 && t.hasKey && !t.ranged ==>
              Copy(limits, concurrency, t) == Result(multiset{}, [], Some(NoRange))
    ensures t.active && (concurrency <= 1 || !t.hasKey) && !t.luck.connected ==>
              Copy(limits, concurrency, t)
              == Result(multiset{}, [Start(t.name)], Some(Single(Pipeline.NoConnection)))
    ensures t.active && (concurrency <= 1 || !t.hasKey) && t.luck.connected
            && t.luck.cancel.Some? && t.luck.cancel.value < |t.rows| ==>
              Copy(limits, concurrency, t).failure.Some?
    ensures t.active && concurrency > 1 && t.hasKey && t.ranged && t.rows != [] ==>
              Copy(limits, concurrency, t) == CopyShards(limits, concurrency, t)
  {
    hide CopyShards;
    if t.luck.cancel.Some? && t.luck.cancel.value < |t.rows| {
      var feed := SingleFeed(t);
      RowsOfTable(t.rows);
      CancelledFails(t.accepts, limits, feed);
      hide Pipeline.Expected;
    }
  }

  lemma CancelledFails(accepts: bytes -> bool, limits: Pipeline.Limits, feed: Pipeline.Feed)
    requires feed.cancelAt < |feed.rows|
    ensures Pipeline.Expected(accepts, limits, feed).stop.Some?
  {
    Pipeline.DeliveredIsBatchPrefix(accepts, limits, feed);
    Pipeline.UsableEnd(feed.preformatted, feed.rows, feed.end, feed.cancelAt);
    var n := |Pipeline.Usable(feed.preformatted, feed.rows, feed.end, feed.cancelAt).0|;
    Pipeline.UsableAt(feed.preformatted, feed.rows, feed.end, feed.cancelAt, n);
    hide Pipeline.Usable, Pipeline.Plan, Pipeline.AcceptedPrefix;
  }

  lemma {:induction false} RowsOfTable(rows: seq<KeyedRow>)
    ensures |Shards.AllRows(rows)| == |rows|
  {
    if rows != [] {
      RowsOfTable(rows[1..]);
    }
  }

  /** The copy of a table is not disturbed: by a fault, by a cancellation, or by a range that cannot be read. */
  predicate Smooth(t: Table) {
    ShardRuns.Undisturbed(t.schedule) && t.luck == NO_FAULT && t.ranged
  }

  lemma SingleSucceeds(limits: Pipeline.Limits, concurrency: int, t: Table)
    requires t.luck == NO_FAULT
    ensures CopySingle(limits, t).failure.None?
       <==> Pipeline.Expected(t.accepts, limits,
                              ParallelCopy.SequentialFeed(JobOf(limits, concurrency, t))).stop.None?
  {
    SameFeed(limits, concurrency, t);
    hide Pipeline.Expected, JobOf, SingleFeed;
  }

  lemma ShardsSucceed(limits: Pipeline.Limits, concurrency: int, t: Table)
    requires concurrency > 1 && InShards(concurrency, t) && Comparable(limits, concurrency, t) && Smooth(t)
    ensures CopyShards(limits, concurrency, t).failure.None? <==> CopySingle(limits, t).failure.None?
  {
    var job := JobOf(limits, concurrency, t);
    var c := ParallelCopy.ShardConfig(job);
    var schedule := WaitForAll(c, t.schedule);
    var s := Run(c, Init(c), schedule);
    assert CopyShards(limits, concurrency, t).failure.None? <==> SelectError(s.errCh, None).None?;
    assert t.luck == NO_FAULT && ShardRuns.Undisturbed(t.schedule);
    assert job.accepts == t.accepts && job.limits == limits && job.preformatted == t.preformatted;
    hide *;
    JobSharded(limits, concurrency, t);
    WaitFinishes(c, t.schedule);
    ShardRuns.WaitUndisturbed(c, t.schedule);
    ErrorsOverAllSchedules(c, schedule);
    ParallelCopy.SucceedsAsSequential(job, schedule);
    SingleSucceeds(limits, concurrency, t);
  }

  lemma CopySucceeds(limits: Pipeline.Limits, concurrency: int, t: Table)
    requires concurrency > 1 && Comparable(limits, concurrency, t) && Smooth(t)
    ensures Copy(limits, concurrency, t).failure.None? <==> Copy(limits, 1, t).failure.None?
  {
    if InShards(concurrency, t) {
      ShardsSucceed(limits, concurrency, t);
    }
    hide CopyShards, CopySingle, Comparable, ShardRuns.Undisturbed;
  }

  lemma {:induction false} SucceededFirst(limits: Pipeline.Limits, concurrency: int, tables: seq<Table>)
    ensures Succeeded(tables, CopyAll(limits, concurrency, tables))
       <==> forall i | 0 <= i < |tables| :: Copy(limits, concurrency, tables[i]).failure.None?
  {
    hide Copy;
    if tables != [] {
      var rest := CopyAll(limits, concurrency, tables[1..]);
      SucceededFirst(limits, concurrency, tables[1..]);
      if Copy(limits, concurrency, tables[0]).failure.None? {
        var all := CopyAll(limits, concurrency, tables);
        assert all == [Copy(limits, concurrency, tables[0])] + rest;
        assert forall i | 0 <= i < |rest| :: all[i + 1] == rest[i];
        assert forall i | 0 <= i < |tables| - 1 :: tables[1..][i] == tables[i + 1];
        if Succeeded(tables[1..], rest) {
          assert forall i | 0 < i < |tables| :: tables[i] == tables[1..][i - 1];
        }
      } else {
        assert CopyAll(limits, concurrency, tables)[0].failure.Some?;
      }
    }
  }

  /**
   When nothing from outside disturbs it, a migration with shards copies all tables if and only if the one
   without shards does.
   */
  lemma ShardsSucceedAlike(limits: Pipeline.Limits, concurrency: int, tables: seq<Table>)
    requires concurrency > 1
    requires forall i | 0 <= i < |tables| :: Comparable(limits, concurrency, tables[i]) && Smooth(tables[i])
    ensures Succeeded(tables, CopyAll(limits, concurrency, tables))
       <==> Succeeded(tables, CopyAll(limits, 1, tables))
  {
    hide Copy, CopyAll, Succeeded, Comparable, Smooth;
    SucceededFirst(limits, concurrency, tables);
    SucceededFirst(limits, 1, tables);
    forall i | 0 <= i < |tables|
      ensures Copy(limits, concurrency, tables[i]).failure.None? <==> Copy(limits, 1, tables[i]).failure.None?
    {
      CopySucceeds(limits, concurrency, tables[i]);
    }
  }
}
