/**
 Parallel copy of one table (internal/orchestrator/orchestrator.go): shard pipelines run as goroutines
 that share the target, the monitor's event channel, an error channel and a cancellable context.
 A schedule picks, step by step, which shard moves and which faults occur; results hold for every
 schedule.
 */
module Orchestrator {
  import opened Bytes
  import opened Decimal
  import opened Monitor
  import opened Pipeline
  import CopyText
  import Lines

  // ----- State -----

  /** A cancellation, the end of a run for a reason of its own, or a fault of its surroundings. */
  datatype Err = Canceled | Stopped(stop: Stop) | Other(code: int)

  /** Where a shard's goroutine stands, between two operations that others can observe. */
  datatype PC =
    | Begin
    | Acquire
    | Reading
    | Flushing(final: bool)
    | Copied(final: bool)
    | CopyFailing(err: Err)
    | Ending
    | Failing(err: Err)
    | Cancelling(err: Err)
    | Finished(result: Option<Err>)

  /** One shard: rows read, current batch, batches committed, size of a failed batch, events sent. */
  datatype Proc = Proc(pc: PC, i: nat, batch: Formatted, done: seq<Formatted>, rejected: Option<nat>,
                       sent: seq<Event>)

  datatype Config = Config(accepts: bytes -> bool, limits: Limits, table: string, feeds: seq<Feed>)

  datatype State = State(procs: seq<Proc>, target: multiset<bytes>, events: seq<Event>, errCh: seq<Err>,
                         cancelled: bool, parentCancelled: bool)

  const NEW_PROC := Proc(Begin, 0, [], [], None, [])

  function Init(c: Config): State {
    State(seq(|c.feeds|, _ => NEW_PROC), multiset{}, [], [], false, false)
  }

  // ----- Steps -----

  /** Cancellation by the caller, or one step of a shard, perhaps with a fault of its surroundings. */
  datatype Choice = ParentCancel | Move(k: nat, fault: Option<Err>)

  /** What one step of a shard changes. */
  datatype Effect = Effect(proc: Proc, commit: multiset<bytes>, emit: seq<Event>, report: seq<Err>, cancel: bool)

  function Quiet(p: Proc): Effect { Effect(p, multiset{}, [], [], false) }

  function Emit(p: Proc, e: Event): Effect {
    Effect(p.(sent := p.sent + [e]), multiset{}, [e], [], false)
  }

  /** The context seen by the shards is independent of the feed, so the feed itself never cancels. */
  function ShardFeed(c: Config, k: nat): Feed
    requires k < |c.feeds|
  {
    c.feeds[k].(cancelAt := |c.feeds[k].rows|)
  }

  function ProcStep(c: Config, k: nat, p: Proc, cancelled: bool, room: bool, fault: Option<Err>): Effect
    requires k < |c.feeds|
  {
    var feed := c.feeds[k];
    match p.pc
    case Begin => Emit(p.(pc := Acquire), Start(c.table))
    case Acquire => Quiet(p.(pc := if fault.Some? then Failing(fault.value) else Reading))
    case Reading =>
      if fault.Some? then Quiet(p.(pc := Failing(fault.value)))
      else if p.i >= |feed.rows| then
        Quiet(p.(pc := if feed.end.Some? then Failing(Stopped(feed.end.value))
                       else if p.batch != [] then Flushing(true)
                       else Ending))
      else if cancelled then Quiet(p.(pc := Failing(Canceled)))
      else
        (match Format(feed.preformatted, feed.rows[p.i])
         case None => Quiet(p.(pc := Failing(Stopped(BadRow))))
         case Some(f) =>
           var batch := p.batch + [f];
           Quiet(p.(pc := if Full(c.limits, batch) then Flushing(false) else Reading, i := p.i + 1, batch := batch)))
    case Flushing(final) =>
      if fault.Some? then Quiet(p.(pc := CopyFailing(fault.value)))
      else if Accepted(c.accepts, p.batch) then
        Effect(p.(pc := Copied(final), done := p.done + [p.batch]), multiset(Lines.Records(Concat(p.batch))), [], [],
               false)
      else Quiet(p.(pc := CopyFailing(Stopped(CopyFailed))))
    case Copied(final) =>
      Emit(p.(pc := if final then Ending else Reading, batch := []), Write(c.table, |p.batch|, Size(p.batch)))
    case CopyFailing(e) =>
      Emit(p.(pc := Failing(e), rejected := Some(|p.batch|)), Error(c.table, |p.batch|))
    case Ending => Emit(p.(pc := Finished(None)), End(c.table))
    case Failing(e) =>
      if room then Effect(p.(pc := Cancelling(e)), multiset{}, [], [e], false) else Quiet(p)
    case Cancelling(e) => Effect(p.(pc := Finished(Some(e))), multiset{}, [], [], true)
    case Finished(_) => Quiet(p)
  }

  /** A cancellation fault needs a cancelled context. */
  function Possible(s: State, fault: Option<Err>): Option<Err> {
    if fault == Some(Canceled) && !s.cancelled then None else fault
  }

  function Step(c: Config, s: State, choice: Choice): State
    requires |s.procs| == |c.feeds|
  {
    match choice
    case ParentCancel => s.(cancelled := true, parentCancelled := true)
    case Move(k, fault) =>
      if k >= |s.procs| then s
      else
        var e := ProcStep(c, k, s.procs[k], s.cancelled, |s.errCh| < |s.procs|, Possible(s, fault));
        State(s.procs[k := e.proc], s.target + e.commit, s.events + e.emit, s.errCh + e.report,
              s.cancelled || e.cancel, s.parentCancelled)
  }

  function Run(c: Config, s: State, schedule: seq<Choice>): (r: State)
    requires |s.procs| == |c.feeds|
    ensures |r.procs| == |c.feeds|
    decreases |schedule|
  {
    if schedule == [] then s else Run(c, Step(c, s, schedule[0]), schedule[1..])
  }

  // ----- Sums over shards -----

  function SumBy<T>(procs: seq<Proc>, f: Proc -> multiset<T>): multiset<T> {
    if procs == [] then multiset{} else SumBy(procs[..|procs| - 1], f) + f(procs[|procs| - 1])
  }

  function CommittedOf(p: Proc): multiset<bytes> { Committed(p.done) }
  function SentOf(p: Proc): multiset<Event> { multiset(p.sent) }
  function ReportedOf(p: Proc): multiset<Err> {
    if p.pc.Cancelling? then multiset{p.pc.err}
    else if p.pc.Finished? && p.pc.result.Some? then multiset{p.pc.result.value}
    else multiset{}
  }

  lemma {:induction false} SumUpdate<T>(procs: seq<Proc>, f: Proc -> multiset<T>, k: nat, p: Proc, d: multiset<T>)
    requires k < |procs| && f(p) == f(procs[k]) + d
    ensures SumBy(procs[k := p], f) == SumBy(procs, f) + d
  {
    var n := |procs| - 1;
    if k == n {
      assert procs[k := p][..n] == procs[..n];
    } else {
      assert procs[k := p][..n] == procs[..n][k := p];
      SumUpdate(procs[..n], f, k, p, d);
    }
  }

  lemma {:induction false} SumOfNew<T>(n: nat, f: Proc -> multiset<T>)
    requires f(NEW_PROC) == multiset{}
    ensures SumBy(seq(n, _ => NEW_PROC), f) == multiset{}
  {
    if n > 0 {
      SumOfNew(n - 1, f);
      assert seq(n, _ => NEW_PROC)[..n - 1] == seq(n - 1, _ => NEW_PROC);
    }
  }

  lemma ReportsSnoc(procs: seq<Proc>)
    requires procs != []
    ensures var n := |procs| - 1;
            |SumBy(procs, ReportedOf)| == |SumBy(procs[..n], ReportedOf)| + |ReportedOf(procs[n])|
    ensures |ReportedOf(procs[|procs| - 1])| <= 1
  {
  }

  /** A shard that has not reported leaves room for its report. */
  lemma {:induction false} ReportsFit(procs: seq<Proc>, k: nat)
    requires k < |procs| && ReportedOf(procs[k]) == multiset{}
    ensures |SumBy(procs, ReportedOf)| < |procs|
  {
    hide *;
    var n := |procs| - 1;
    ReportsSnoc(procs);
    if k == n {
      ReportsBounded(procs[..n]);
    } else {
      ReportsFit(procs[..n], k);
    }
  }

  lemma {:induction false} ReportsBounded(procs: seq<Proc>)
    ensures |SumBy(procs, ReportedOf)| <= |procs|
  {
    if procs != [] {
      ReportsSnoc(procs);
      ReportsBounded(procs[..|procs| - 1]);
    }
  }

  lemma {:induction false} SumContains<T>(procs: seq<Proc>, f: Proc -> multiset<T>, k: nat)
    requires k < |procs|
    ensures f(procs[k]) <= SumBy(procs, f)
  {
    var n := |procs| - 1;
    if k < n {
      SumContains(procs[..n], f, k);
    }
  }

  lemma {:induction false} SumEmpty<T>(procs: seq<Proc>, f: Proc -> multiset<T>)
    requires forall k | 0 <= k < |procs| :: f(procs[k]) == multiset{}
    ensures SumBy(procs, f) == multiset{}
  {
    if procs != [] {
      SumEmpty(procs[..|procs| - 1], f);
    }
  }

  // ----- The invariant of one shard -----

  function Rows(c: Config, k: nat): Formatted
    requires k < |c.feeds|
  {
    var feed := ShardFeed(c, k);
    Usable(feed.preformatted, feed.rows, feed.end, feed.cancelAt).0
  }

  function Ended(c: Config, k: nat): Option<Stop>
    requires k < |c.feeds|
  {
    var feed := ShardFeed(c, k);
    Usable(feed.preformatted, feed.rows, feed.end, feed.cancelAt).1
  }

  /** Batches whose write event has been sent. */
  function Reported(p: Proc): seq<Formatted> {
    if p.pc.Copied? && p.done != [] then p.done[..|p.done| - 1] else p.done
  }

  function SentBy(table: string, p: Proc): seq<Event> {
    if p.pc.Begin? then []
    else
      [Start(table)] + Writes(table, Reported(p))
      + (if p.rejected.Some? then [Error(table, p.rejected.value)] else [])
      + (if p.pc == Finished(None) then [End(table)] else [])
  }

  /** Only whole batches of the greedy batching, in order, and only accepted ones. */
  predicate DoneOk(c: Config, k: nat, done: seq<Formatted>)
    requires k < |c.feeds|
  {
    && done <= Batches(c.limits, Rows(c, k))
    && AcceptedPrefix(c.accepts, done) == |done|
  }

  /** Position of the shard in its plan. */
  predicate Place(c: Config, k: nat, p: Proc)
    requires k < |c.feeds|
  {
    match p.pc
    case Begin => p.i == 0 && p.batch == [] && p.done == []
    case Acquire => p.i == 0 && p.batch == [] && p.done == []
    case Reading => Progress(c.accepts, c.limits, ShardFeed(c, k), p.i, p.batch, p.done)
    case Flushing(final) =>
      if final then
        && p.batch != [] && Ended(c, k).None?
        && p.done + [p.batch] == Batches(c.limits, Rows(c, k))
      else
        Accepted(c.accepts, p.batch) ==> Progress(c.accepts, c.limits, ShardFeed(c, k), p.i, [], p.done + [p.batch])
    case Copied(final) =>
      && p.done != [] && p.done[|p.done| - 1] == p.batch
      && if final then Ended(c, k).None? && p.done == Batches(c.limits, Rows(c, k))
         else Progress(c.accepts, c.limits, ShardFeed(c, k), p.i, [], p.done)
    case Ending => Ended(c, k).None? && p.done == Batches(c.limits, Rows(c, k))
    case Finished(None) => Ended(c, k).None? && p.done == Batches(c.limits, Rows(c, k))
    case _ => true
  }

  predicate FaultFree(p: Proc) {
    p.rejected.Some? ==> p.pc.Failing? || p.pc.Cancelling? || (p.pc.Finished? && p.pc.result.Some?)
  }

  predicate ProcOk(c: Config, k: nat, p: Proc)
    requires k < |c.feeds|
  {
    && DoneOk(c, k, p.done) && Place(c, k, p) && FaultFree(p) && p.sent == SentBy(c.table, p)
  }

  /** An error a shard is about to report. */
  function Pending(p: Proc): Option<Err> {
    match p.pc
    case CopyFailing(e) => Some(e)
    case Failing(e) => Some(e)
    case Cancelling(e) => Some(e)
    case _ => None
  }

  lemma ProgressDoneOk(c: Config, k: nat, i: nat, batch: Formatted, done: seq<Formatted>)
    requires k < |c.feeds| && Progress(c.accepts, c.limits, ShardFeed(c, k), i, batch, done)
    ensures DoneOk(c, k, done)
  {
    var r := Cut(c.limits, Rows(c, k), []);
    assert done <= r.0;
    assert r.0 <= Batches(c.limits, Rows(c, k));
  }

  lemma ReadingRow(c: Config, k: nat, p: Proc, room: bool)
    requires k < |c.feeds| && p.pc == Reading && Place(c, k, p) && p.i < |c.feeds[k].rows|
    ensures Place(c, k, ProcStep(c, k, p, false, room, None).proc)
  {
    var feed := ShardFeed(c, k);
    assert p.i <= |Rows(c, k)|;
    RowCase(feed, p.i);
    hide Usable, Cut, Accepted, AcceptedPrefix, Full, Format, Progress, Batches;
    var f := Format(feed.preformatted, feed.rows[p.i]);
    if f.Some? {
      KeepFilling(c.accepts, c.limits, feed, p.i, p.batch, p.done, f.value);
    }
  }

  lemma ReadingEnd(c: Config, k: nat, p: Proc, cancelled: bool, room: bool)
    requires k < |c.feeds| && p.pc == Reading && Place(c, k, p) && (p.i >= |c.feeds[k].rows| || cancelled)
    ensures Place(c, k, ProcStep(c, k, p, cancelled, room, None).proc)
  {
    if p.i >= |c.feeds[k].rows| {
      RowsOver(c, k, p);
    }
    assert p.i >= |c.feeds[k].rows| ==> Ended(c, k) == c.feeds[k].end;
    hide Usable, Accepted, AcceptedPrefix, Full, Format, Progress, Cut, Batches, Ended, Rows;
  }

  /** After the last row: what has been delivered and the batch that is left are all there is. */
  lemma RowsOver(c: Config, k: nat, p: Proc)
    requires k < |c.feeds| && p.i >= |c.feeds[k].rows|
    requires Progress(c.accepts, c.limits, ShardFeed(c, k), p.i, p.batch, p.done)
    ensures Batches(c.limits, Rows(c, k)) == p.done + NonEmpty(p.batch) && Ended(c, k) == c.feeds[k].end
  {
    RowCase(ShardFeed(c, k), p.i);
    assert Rows(c, k)[p.i..] == [];
    hide Usable, AcceptedPrefix;
    assert p.done + [] == p.done;
  }

  /** What reading a row, or the end of the rows, does to a shard in progress. */
  lemma ReadingStep(c: Config, k: nat, p: Proc, cancelled: bool, room: bool)
    requires k < |c.feeds| && p.pc == Reading && Place(c, k, p)
    ensures Place(c, k, ProcStep(c, k, p, cancelled, room, None).proc)
  {
    if p.i < |c.feeds[k].rows| && !cancelled {
      ReadingRow(c, k, p, room);
    } else {
      ReadingEnd(c, k, p, cancelled, room);
    }
    hide Place, ProcStep;
  }

  lemma ProcStepDone(c: Config, k: nat, p: Proc, cancelled: bool, room: bool, fault: Option<Err>)
    requires k < |c.feeds| && ProcOk(c, k, p)
    ensures DoneOk(c, k, ProcStep(c, k, p, cancelled, room, fault).proc.done)
  {
    if p.pc.Flushing? && fault.None? && Accepted(c.accepts, p.batch) {
      if p.pc.final {
        SuccessExtends(c.accepts, p.done, p.batch);
      } else {
        ProgressDoneOk(c, k, p.i, [], p.done + [p.batch]);
      }
    }
  }

  lemma AcquireStep(c: Config, k: nat, p: Proc, cancelled: bool, room: bool, fault: Option<Err>)
    requires k < |c.feeds| && p.pc == Acquire && Place(c, k, p)
    ensures Place(c, k, ProcStep(c, k, p, cancelled, room, fault).proc)
  {
    StartFacts(c.accepts, c.limits, c.table, ShardFeed(c, k));
    hide Progress, Batches, Usable, Cut, Format, Full, Accepted, Size;
  }

  lemma OtherStep(c: Config, k: nat, p: Proc, cancelled: bool, room: bool, fault: Option<Err>)
    requires k < |c.feeds| && p.pc != Acquire && (p.pc == Reading ==> fault.Some?) && Place(c, k, p)
    ensures Place(c, k, ProcStep(c, k, p, cancelled, room, fault).proc)
  {
    hide Progress, Batches, Usable, Cut, Format, Full, Accepted, Size, Writes, Ended, Rows, ShardFeed;
  }

  lemma ProcStepPlace(c: Config, k: nat, p: Proc, cancelled: bool, room: bool, fault: Option<Err>)
    requires k < |c.feeds| && ProcOk(c, k, p)
    ensures Place(c, k, ProcStep(c, k, p, cancelled, room, fault).proc)
    ensures FaultFree(ProcStep(c, k, p, cancelled, room, fault).proc)
  {
    hide Place, ProcStep, FaultFree, SentBy, DoneOk;
    ProcStepFaultFree(c, k, p, cancelled, room, fault);
    if p.pc.Acquire? {
      AcquireStep(c, k, p, cancelled, room, fault);
    } else if p.pc.Reading? && fault.None? {
      ReadingStep(c, k, p, cancelled, room);
    } else {
      OtherStep(c, k, p, cancelled, room, fault);
    }
  }

  lemma ProcStepFaultFree(c: Config, k: nat, p: Proc, cancelled: bool, room: bool, fault: Option<Err>)
    requires k < |c.feeds| && FaultFree(p)
    ensures FaultFree(ProcStep(c, k, p, cancelled, room, fault).proc)
  {
    hide Format, Full, Accepted, Size;
  }

  /** A COPY: if it succeeds its write event is still to be sent. */
  lemma FlushStep(c: Config, k: nat, p: Proc, cancelled: bool, room: bool, fault: Option<Err>)
    requires k < |c.feeds| && p.pc.Flushing? && p.sent == SentBy(c.table, p) && FaultFree(p)
    ensures var q := ProcStep(c, k, p, cancelled, room, fault).proc; q.sent == SentBy(c.table, q)
  {
    var q := ProcStep(c, k, p, cancelled, room, fault).proc;
    hide Format, Full, Accepted, Size, Writes, Concat, Lines.Records;
    if q.pc.Copied? {
      assert q.done[..|q.done| - 1] == p.done;
    }
  }

  lemma WriteStep(c: Config, k: nat, p: Proc, cancelled: bool, room: bool, fault: Option<Err>)
    requires k < |c.feeds| && p.pc.Copied? && p.sent == SentBy(c.table, p) && FaultFree(p)
    requires p.done != [] && p.done[|p.done| - 1] == p.batch
    ensures var q := ProcStep(c, k, p, cancelled, room, fault).proc; q.sent == SentBy(c.table, q)
  {
    hide Format, Full, Accepted, Size, Writes, Concat, Lines.Records;
    var n := |p.done| - 1;
    assert p.done == p.done[..n] + [p.batch];
    WritesSnoc(c.table, p.done[..n], p.batch);
  }

  lemma SendingStep(c: Config, k: nat, p: Proc, cancelled: bool, room: bool, fault: Option<Err>)
    requires k < |c.feeds| && p.sent == SentBy(c.table, p) && FaultFree(p)
    requires (p.pc.Begin? && p.done == []) || p.pc.CopyFailing? || p.pc.Ending?
    ensures var q := ProcStep(c, k, p, cancelled, room, fault).proc; q.sent == SentBy(c.table, q)
  {
    WritesNothing(c.table);
    SendsOne(c, k, p, cancelled, room, fault);
    hide ProcStep, Writes;
  }

  /** The first event, the one of a failed COPY, and the last one. */
  lemma SendsOne(c: Config, k: nat, p: Proc, cancelled: bool, room: bool, fault: Option<Err>)
    requires k < |c.feeds| && (p.pc.Begin? || p.pc.CopyFailing? || p.pc.Ending?)
    ensures var q := ProcStep(c, k, p, cancelled, room, fault).proc;
            q == match p.pc
                 case Begin => p.(pc := Acquire, sent := p.sent + [Start(c.table)])
                 case Ending => p.(pc := Finished(None), sent := p.sent + [End(c.table)])
                 case CopyFailing(e) =>
                   p.(pc := Failing(e), rejected := Some(|p.batch|), sent := p.sent + [Error(c.table, |p.batch|)])
                 case _ => p
  {
    hide Format, Full, Accepted, Size, Concat, Lines.Records;
  }

  lemma SilentStep(c: Config, k: nat, p: Proc, cancelled: bool, room: bool, fault: Option<Err>)
    requires k < |c.feeds| && p.sent == SentBy(c.table, p) && FaultFree(p)
    requires p.pc.Acquire? || p.pc.Reading? || p.pc.Failing? || p.pc.Cancelling? || p.pc.Finished?
    ensures var q := ProcStep(c, k, p, cancelled, room, fault).proc; q.sent == SentBy(c.table, q)
  {
    hide Format, Full, Accepted, Size, Writes;
  }

  lemma ProcStepSent(c: Config, k: nat, p: Proc, cancelled: bool, room: bool, fault: Option<Err>)
    requires k < |c.feeds| && ProcOk(c, k, p)
    ensures var q := ProcStep(c, k, p, cancelled, room, fault).proc; q.sent == SentBy(c.table, q)
  {
    hide DoneOk, Progress, Batches, Usable, Cut, ProcStep, SentBy, FaultFree;
    if p.pc.Flushing? {
      FlushStep(c, k, p, cancelled, room, fault);
    } else if p.pc.Copied? {
      WriteStep(c, k, p, cancelled, room, fault);
    } else if p.pc.Begin? || p.pc.CopyFailing? || p.pc.Ending? {
      SendingStep(c, k, p, cancelled, room, fault);
    } else {
      SilentStep(c, k, p, cancelled, room, fault);
    }
  }

  lemma WritesNothing(table: string)
    ensures Writes(table, []) == []
  {
  }

  /** What a step gives to the others is what the record of the shard gains. */
  lemma ProcStepDeltas(c: Config, k: nat, p: Proc, cancelled: bool, room: bool, fault: Option<Err>)
    requires k < |c.feeds|
    ensures var e := ProcStep(c, k, p, cancelled, room, fault);
            && e.proc.sent == p.sent + e.emit
            && CommittedOf(e.proc) == CommittedOf(p) + e.commit
  {
    hide Format, Full, Accepted, Size, Committed, Concat, Lines.Records;
    if p.pc.Flushing? {
      CommittedSnoc(p.done, p.batch);
    }
  }

  lemma ProcStepReports(c: Config, k: nat, p: Proc, cancelled: bool, room: bool, fault: Option<Err>)
    requires k < |c.feeds|
    ensures var e := ProcStep(c, k, p, cancelled, room, fault);
            ReportedOf(e.proc) == ReportedOf(p) + multiset(e.report)
  {
    ProcStepErrorCases(c, k, p, cancelled, room, fault);
    hide ProcStep;
  }

  lemma ProcStepErrorCases(c: Config, k: nat, p: Proc, cancelled: bool, room: bool, fault: Option<Err>)
    requires k < |c.feeds|
    ensures var e := ProcStep(c, k, p, cancelled, room, fault);
            && (p.pc.Failing? && room ==> e.report == [p.pc.err] && e.proc.pc == Cancelling(p.pc.err))
            && (!(p.pc.Failing? && room) ==> e.report == [])
            && (p.pc.Cancelling? ==> e.proc.pc == Finished(Some(p.pc.err)))
            && (p.pc.Finished? ==> e.proc.pc == p.pc)
            && (!p.pc.Failing? && !p.pc.Cancelling? && !p.pc.Finished? ==>
                  !e.proc.pc.Cancelling? && (e.proc.pc.Finished? ==> e.proc.pc.result.None?))
            && (p.pc.Failing? && !room ==> e.proc.pc == p.pc)
  {
    hide Format, Full, Accepted, Size, Concat, Lines.Records;
  }

  /** A step keeps the shard in order. */
  lemma ProcStepOk(c: Config, k: nat, p: Proc, cancelled: bool, room: bool, fault: Option<Err>)
    requires k < |c.feeds| && ProcOk(c, k, p)
    ensures var e := ProcStep(c, k, p, cancelled, room, fault);
            && ProcOk(c, k, e.proc)
            && CommittedOf(e.proc) == CommittedOf(p) + e.commit
            && SentOf(e.proc) == SentOf(p) + multiset(e.emit)
            && ReportedOf(e.proc) == ReportedOf(p) + multiset(e.report)
  {
    ProcStepDone(c, k, p, cancelled, room, fault);
    ProcStepPlace(c, k, p, cancelled, room, fault);
    ProcStepSent(c, k, p, cancelled, room, fault);
    ProcStepDeltas(c, k, p, cancelled, room, fault);
    ProcStepReports(c, k, p, cancelled, room, fault);
    hide ProcStep, DoneOk, Place, Committed, SentBy, CommittedOf, ReportedOf, FaultFree;
  }

  // ----- The invariant of the whole run -----

  predicate Inv(c: Config, s: State) {
    && |s.procs| == |c.feeds|
    && (forall k | 0 <= k < |s.procs| :: ProcOk(c, k, s.procs[k]))
    && s.target == SumBy(s.procs, CommittedOf)
    && multiset(s.events) == SumBy(s.procs, SentOf)
    && multiset(s.errCh) == SumBy(s.procs, ReportedOf)
  }

  /** Where cancellations come from. */
  predicate Causes(s: State) {
    && (forall k | 0 <= k < |s.procs| :: Pending(s.procs[k]) == Some(Canceled) ==> s.cancelled)
    && (forall k | 0 <= k < |s.procs| && s.procs[k].pc.Cancelling? :: s.procs[k].pc.err in s.errCh)
    && (s.cancelled && !s.parentCancelled ==> exists i :: 0 <= i < |s.errCh| && s.errCh[i] != Canceled)
    && (forall i | 0 <= i < |s.errCh| && s.errCh[i] == Canceled :: s.cancelled)
  }

  lemma InitInv(c: Config)
    ensures Inv(c, Init(c)) && Causes(Init(c))
  {
    var s := Init(c);
    SumOfNew(|c.feeds|, CommittedOf);
    SumOfNew(|c.feeds|, SentOf);
    SumOfNew(|c.feeds|, ReportedOf);
    forall k | 0 <= k < |s.procs|
      ensures ProcOk(c, k, s.procs[k])
    {
      assert s.procs[k] == NEW_PROC;
    }
  }

  /** The sums follow the step of one shard. */
  lemma SumsStep(procs: seq<Proc>, k: nat, e: Effect)
    requires k < |procs|
    requires CommittedOf(e.proc) == CommittedOf(procs[k]) + e.commit
    requires SentOf(e.proc) == SentOf(procs[k]) + multiset(e.emit)
    requires ReportedOf(e.proc) == ReportedOf(procs[k]) + multiset(e.report)
    ensures SumBy(procs[k := e.proc], CommittedOf) == SumBy(procs, CommittedOf) + e.commit
    ensures SumBy(procs[k := e.proc], SentOf) == SumBy(procs, SentOf) + multiset(e.emit)
    ensures SumBy(procs[k := e.proc], ReportedOf) == SumBy(procs, ReportedOf) + multiset(e.report)
  {
    hide *;
    SumUpdate(procs, CommittedOf, k, e.proc, e.commit);
    SumUpdate(procs, SentOf, k, e.proc, multiset(e.emit));
    SumUpdate(procs, ReportedOf, k, e.proc, multiset(e.report));
  }

  lemma StepInv(c: Config, s: State, choice: Choice)
    requires Inv(c, s)
    ensures Inv(c, Step(c, s, choice))
  {
    hide ProcOk, ProcStep, CommittedOf, SentOf, ReportedOf, SumBy;
    if choice.Move? && choice.k < |s.procs| {
      var k, fault, room := choice.k, Possible(s, choice.fault), |s.errCh| < |s.procs|;
      ProcStepOk(c, k, s.procs[k], s.cancelled, room, fault);
      SumsStep(s.procs, k, ProcStep(c, k, s.procs[k], s.cancelled, room, fault));
    }
  }

  /** Where one step of a shard leaves its error. */
  lemma ProcStepErrors(c: Config, s: State, k: nat, fault: Option<Err>)
    requires k < |s.procs| == |c.feeds|
    ensures var p, room := s.procs[k], |s.errCh| < |s.procs|;
            var e := ProcStep(c, k, p, s.cancelled, room, Possible(s, fault));
            && (Pending(e.proc) == Some(Canceled) ==> Pending(p) == Some(Canceled) || s.cancelled)
            && (e.proc.pc.Cancelling? ==> (p.pc == Failing(e.proc.pc.err) && e.report == [e.proc.pc.err]))
            && (e.report != [] ==> p.pc.Failing? && e.report == [p.pc.err])
            && (e.cancel ==> p.pc.Cancelling?)
  {
    hide Format, Full, Accepted, Size;
  }

  lemma StepCauses(c: Config, s: State, choice: Choice)
    requires |s.procs| == |c.feeds| && Causes(s)
    ensures Causes(Step(c, s, choice))
  {
    if choice.Move? && choice.k < |s.procs| {
      var k, fault, room := choice.k, Possible(s, choice.fault), |s.errCh| < |s.procs|;
      var p := s.procs[k];
      var e := ProcStep(c, k, p, s.cancelled, room, fault);
      var t := Step(c, s, choice);
      ProcStepErrors(c, s, k, choice.fault);
      hide ProcStep;
      assert forall i | 0 <= i < |s.errCh| :: t.errCh[i] == s.errCh[i];
      if e.report != [] {
        assert t.errCh[|s.errCh|] == p.pc.err;
      }
      if p.pc.Cancelling? && !s.cancelled {
        // Only a real error can be the first one reported.
        var i :| 0 <= i < |s.errCh| && s.errCh[i] == p.pc.err;
        assert t.errCh[i] != Canceled;
      }
    }
  }

  lemma {:induction false} RunInv(c: Config, s: State, schedule: seq<Choice>)
    requires Inv(c, s) && Causes(s)
    ensures Inv(c, Run(c, s, schedule)) && Causes(Run(c, s, schedule))
    decreases |schedule|
  {
    assert |s.procs| == |c.feeds|;
    hide Inv, Causes, Step;
    if schedule != [] {
      StepInv(c, s, schedule[0]);
      StepCauses(c, s, schedule[0]);
      RunInv(c, Step(c, s, schedule[0]), schedule[1..]);
    }
  }

  // ----- The error that is returned -----

  function SelectError(errs: seq<Err>, first: Option<Err>): Option<Err> {
    if errs == [] then first
    else if errs[0] != Canceled then Some(errs[0])
    else SelectError(errs[1..], if first.None? then Some(errs[0]) else first)
  }

  /** The loop over the closed error channel. */
  method ReturnedError(errCh: seq<Err>) returns (result: Option<Err>)
    ensures result.None? <==> errCh == []
    ensures result.Some? ==> result.value in errCh
    ensures (exists i :: 0 <= i < |errCh| && errCh[i] != Canceled) ==> result.Some? && result.value != Canceled
    ensures result == SelectError(errCh, None)
  {
    var firstErr: Option<Err> := None;
    for i := 0 to |errCh|
      invariant firstErr.None? <==> i == 0
      invariant firstErr.Some? ==> firstErr == Some(Canceled) && Canceled in errCh
      invariant forall j | 0 <= j < i :: errCh[j] == Canceled
      invariant SelectError(errCh[i..], firstErr) == SelectError(errCh, None)
    {
      assert errCh[i..][1..] == errCh[i + 1..];
      var err := errCh[i];
      if firstErr.None? {
        firstErr := Some(err);
      }
      if err != Canceled {
        return Some(err);
      }
    }
    return firstErr;
  }

  lemma {:induction false} SelectErrorMeaning(errs: seq<Err>, first: Option<Err>)
    ensures SelectError(errs, first).None? <==> errs == [] && first.None?
    ensures SelectError(errs, first).Some? && SelectError(errs, first) != first ==>
              SelectError(errs, first).value in errs
    ensures (exists i :: 0 <= i < |errs| && errs[i] != Canceled) ==>
              SelectError(errs, first).Some? && SelectError(errs, first).value != Canceled
  {
    if errs != [] && errs[0] == Canceled {
      var next := if first.None? then Some(errs[0]) else first;
      SelectErrorMeaning(errs[1..], next);
      if i :| 0 <= i < |errs| && errs[i] != Canceled {
        assert errs[1..][i - 1] != Canceled;
      }
    }
  }

  predicate AllFinished(s: State) {
    forall k | 0 <= k < |s.procs| :: s.procs[k].pc.Finished?
  }

  predicate AllSucceeded(s: State) {
    forall k | 0 <= k < |s.procs| :: s.procs[k].pc == Finished(None)
  }

  lemma NoBlocking(c: Config, s: State, k: nat)
    requires Inv(c, s) && k < |s.procs| && s.procs[k].pc.Failing?
    ensures |s.errCh| < |s.procs|
  {
    assert |multiset(s.errCh)| == |s.errCh|;
    assert ReportedOf(s.procs[k]) == multiset{};
    hide *;
    ReportsFit(s.procs, k);
  }

  lemma NilIffNoFailure(c: Config, s: State)
    requires Inv(c, s) && AllFinished(s)
    ensures s.errCh == [] <==> AllSucceeded(s)
  {
    hide ProcOk, SumBy;
    if AllSucceeded(s) {
      SumEmpty(s.procs, ReportedOf);
      assert |multiset(s.errCh)| == |s.errCh|;
    } else {
      var k :| 0 <= k < |s.procs| && s.procs[k].pc != Finished(None);
      SumContains(s.procs, ReportedOf, k);
      assert ReportedOf(s.procs[k]) == multiset{s.procs[k].pc.result.value};
      assert s.procs[k].pc.result.value in multiset(s.errCh);
    }
  }

  lemma CanceledOnlyIfCaller(s: State)
    requires Causes(s) && SelectError(s.errCh, None) == Some(Canceled)
    ensures s.parentCancelled && forall i | 0 <= i < |s.errCh| :: s.errCh[i] == Canceled
  {
    hide SelectError;
    SelectErrorMeaning(s.errCh, None);
    assert forall i | 0 <= i < |s.errCh| :: s.errCh[i] == Canceled;
    assert s.errCh[0] == Canceled;
  }

  /**
   However the shards interleave and fail: the error channel has room whenever a shard wants to report,
   the result is nil exactly when no shard failed, it is a cancellation only if no shard reported
   anything else, and that cannot happen unless the caller cancelled.
   */
  lemma ErrorsOverAllSchedules(c: Config, schedule: seq<Choice>)
    ensures var s := Run(c, Init(c), schedule);
            && (forall k | 0 <= k < |s.procs| && s.procs[k].pc.Failing? :: |s.errCh| < |s.procs|)
            && (AllFinished(s) ==> (SelectError(s.errCh, None).None? <==> AllSucceeded(s)))
            && (SelectError(s.errCh, None) == Some(Canceled) ==>
                  s.parentCancelled && forall i | 0 <= i < |s.errCh| :: s.errCh[i] == Canceled)
  {
    hide *;
    InitInv(c);
    RunInv(c, Init(c), schedule);
    var s := Run(c, Init(c), schedule);
    forall k | 0 <= k < |s.procs| && s.procs[k].pc.Failing?
      ensures |s.errCh| < |s.procs|
    {
      NoBlocking(c, s, k);
    }
    SelectErrorMeaning(s.errCh, None);
    if AllFinished(s) {
      NilIffNoFailure(c, s);
    }
    if SelectError(s.errCh, None) == Some(Canceled) {
      CanceledOnlyIfCaller(s);
    }
  }

  // ----- A failure cancels the others -----

  predicate Failed(p: Proc) { p.pc.Finished? && p.pc.result.Some? }

  /** The shards see a cancelled context exactly when the caller cancelled it or one of them failed. */
  predicate CancelKnown(s: State) {
    s.cancelled <==> s.parentCancelled || exists k :: 0 <= k < |s.procs| && Failed(s.procs[k])
  }

  lemma CancelStep(c: Config, s: State, choice: Choice)
    requires |s.procs| == |c.feeds| && CancelKnown(s)
    ensures CancelKnown(Step(c, s, choice))
  {
    if choice.Move? && choice.k < |s.procs| {
      var k := choice.k;
      var e := ProcStep(c, k, s.procs[k], s.cancelled, |s.errCh| < |s.procs|, Possible(s, choice.fault));
      var t := Step(c, s, choice);
      FailingCancels(c, k, s.procs[k], s.cancelled, |s.errCh| < |s.procs|, Possible(s, choice.fault));
      hide ProcStep;
      assert t.procs[k] == e.proc && forall j | 0 <= j < |s.procs| && j != k :: t.procs[j] == s.procs[j];
    }
  }

  /** A shard that becomes a failed one cancels, and nothing else does. */
  lemma FailingCancels(c: Config, k: nat, p: Proc, cancelled: bool, room: bool, fault: Option<Err>)
    requires k < |c.feeds|
    ensures var e := ProcStep(c, k, p, cancelled, room, fault); Failed(e.proc) <==> Failed(p) || e.cancel
  {
    hide Format, Full, Accepted, Size;
  }

  lemma {:induction false} CancelRun(c: Config, s: State, schedule: seq<Choice>)
    requires |s.procs| == |c.feeds| && CancelKnown(s)
    ensures CancelKnown(Run(c, s, schedule))
    decreases |schedule|
  {
    hide Step, CancelKnown;
    if schedule != [] {
      StepKeepsShards(c, s, schedule[0]);
      CancelStep(c, s, schedule[0]);
      CancelRun(c, Step(c, s, schedule[0]), schedule[1..]);
    }
  }

  lemma {:induction false} CallerCancels(c: Config, s: State, schedule: seq<Choice>)
    requires |s.procs| == |c.feeds|
    ensures Run(c, s, schedule).parentCancelled <==> s.parentCancelled || ParentCancel in schedule
    decreases |schedule|
  {
    if schedule != [] {
      hide ProcStep, Possible;
      StepKeepsShards(c, s, schedule[0]);
      CallerCancels(c, Step(c, s, schedule[0]), schedule[1..]);
      assert schedule == [schedule[0]] + schedule[1..];
    }
  }

  /** Under every schedule: the shards are told to stop if and only if the caller cancels or a shard has failed. */
  lemma FailureCancels(c: Config, schedule: seq<Choice>)
    ensures var s := Run(c, Init(c), schedule);
            && (s.parentCancelled <==> ParentCancel in schedule)
            && (s.cancelled <==> ParentCancel in schedule || exists k :: 0 <= k < |s.procs| && Failed(s.procs[k]))
  {
    var s := Init(c);
    assert forall k | 0 <= k < |s.procs| :: s.procs[k] == NEW_PROC;
    CancelRun(c, s, schedule);
    CallerCancels(c, s, schedule);
  }

  /** A fault of its surroundings fails a shard that waits for a connection, for a row or for a COPY. */
  lemma FaultFails(c: Config, s: State, k: nat, err: Err)
    requires |s.procs| == |c.feeds| && k < |s.procs| && (err == Canceled ==> s.cancelled)
    ensures var p, q := s.procs[k], Step(c, s, Move(k, Some(err))).procs[k];
            && (p.pc.Acquire? || p.pc.Reading? ==> q == p.(pc := Failing(err)))
            && (p.pc.Flushing? ==> q == p.(pc := CopyFailing(err)))
  {
    hide Format, Full, Accepted, Size;
  }

  /** The batch that a shard may still commit without reading on. */
  function Held(p: Proc): (held: seq<Formatted>)
    ensures held == [] || held == [p.batch]
  {
    match p.pc
    case Flushing(_) => [p.batch]
    case Begin => if p.batch == [] then [] else [p.batch]
    case Acquire => if p.batch == [] then [] else [p.batch]
    case Reading => if p.batch == [] then [] else [p.batch]
    case _ => []
  }

  predicate StoppedSince(p: Proc, q: Proc) {
    q.i == p.i && p.done <= q.done && q.done + Held(q) <= p.done + Held(p)
  }

  lemma StopStep(c: Config, k: nat, p: Proc, room: bool, fault: Option<Err>)
    requires k < |c.feeds|
    ensures StoppedSince(p, ProcStep(c, k, p, true, room, fault).proc)
  {
    hide Format, Full, Accepted, Size;
    var q := ProcStep(c, k, p, true, room, fault).proc;
    assert q.i == p.i && (q.done == p.done || (p.pc.Flushing? && q.done == p.done + [p.batch] && q.pc.Copied?));
    hide ProcStep;
    if q.done != p.done {
      assert q.done + Held(q) == p.done + [p.batch];
    }
  }

  predicate AllStoppedSince(s: State, t: State) {
    |t.procs| == |s.procs| && forall k | 0 <= k < |s.procs| :: StoppedSince(s.procs[k], t.procs[k])
  }

  lemma StopStepAll(c: Config, s: State, choice: Choice)
    requires |s.procs| == |c.feeds| && s.cancelled
    ensures Step(c, s, choice).cancelled && AllStoppedSince(s, Step(c, s, choice))
  {
    if choice.Move? && choice.k < |s.procs| {
      StopStep(c, choice.k, s.procs[choice.k], |s.errCh| < |s.procs|, Possible(s, choice.fault));
    }
    hide ProcStep;
  }

  lemma {:induction false} StopRun(c: Config, s: State, schedule: seq<Choice>)
    requires |s.procs| == |c.feeds| && s.cancelled
    ensures Run(c, s, schedule).cancelled && AllStoppedSince(s, Run(c, s, schedule))
    decreases |schedule|
  {
    hide Step, Held;
    if schedule != [] {
      StopStepAll(c, s, schedule[0]);
      StopRun(c, Step(c, s, schedule[0]), schedule[1..]);
    }
  }

  /**
   From the moment at which a shard fails or the caller cancels, under every schedule, no shard reads another
   row, and none commits more than the batch it holds at that moment.
   */
  lemma CancelledStops(c: Config, before: seq<Choice>, after: seq<Choice>, k: nat)
    requires k < |c.feeds| && Run(c, Init(c), before).cancelled
    ensures var p, q := Run(c, Init(c), before).procs[k], Run(c, Init(c), before + after).procs[k];
            q.i == p.i && (q.done == p.done || q.done == p.done + [p.batch])
  {
    var s := Run(c, Init(c), before);
    RunAppend(c, Init(c), before, after);
    StopRun(c, s, after);
    hide Run, Init;
    var p, q := s.procs[k], Run(c, s, after).procs[k];
    assert StoppedSince(p, q);
  }

  // ----- Every shard finishes -----

  /** Bound on the steps a shard still has to take. */
  function StepsLeft(c: Config, k: nat, p: Proc): int
    requires k < |c.feeds|
  {
    var r := 4 * (|c.feeds[k].rows| - p.i);
    match p.pc
    case Begin => r + 14
    case Acquire => r + 13
    case Reading => r + 10
    case Flushing(final) => if final then 9 else r + 12
    case Copied(final) => if final then 8 else r + 11
    case CopyFailing(_) => 3
    case Ending => 7
    case Failing(_) => 2
    case Cancelling(_) => 1
    case Finished(_) => 0
  }

  predicate InRange(c: Config, s: State) {
    |s.procs| == |c.feeds| && forall k | 0 <= k < |s.procs| :: s.procs[k].i <= |c.feeds[k].rows|
  }

  function TotalLeft(c: Config, procs: seq<Proc>): int
    requires |procs| <= |c.feeds|
  {
    if procs == [] then 0
    else TotalLeft(c, procs[..|procs| - 1]) + StepsLeft(c, |procs| - 1, procs[|procs| - 1])
  }

  lemma {:induction false} TotalUpdate(c: Config, procs: seq<Proc>, k: nat, p: Proc)
    requires k < |procs| <= |c.feeds|
    ensures TotalLeft(c, procs[k := p]) == TotalLeft(c, procs) - StepsLeft(c, k, procs[k]) + StepsLeft(c, k, p)
  {
    var n := |procs| - 1;
    if k == n {
      assert procs[k := p][..n] == procs[..n];
    } else {
      assert procs[k := p][..n] == procs[..n][k := p];
      TotalUpdate(c, procs[..n], k, p);
    }
  }

  lemma {:induction false} TotalNonNegative(c: Config, procs: seq<Proc>)
    requires |procs| <= |c.feeds|
    requires forall k | 0 <= k < |procs| :: procs[k].i <= |c.feeds[k].rows|
    ensures TotalLeft(c, procs) >= 0
  {
    if procs != [] {
      TotalNonNegative(c, procs[..|procs| - 1]);
    }
  }

  lemma ProcStepProgresses(c: Config, k: nat, p: Proc, cancelled: bool, fault: Option<Err>)
    requires k < |c.feeds| && p.i <= |c.feeds[k].rows| && !p.pc.Finished?
    ensures var q := ProcStep(c, k, p, cancelled, true, fault).proc;
            q.i <= |c.feeds[k].rows| && StepsLeft(c, k, q) < StepsLeft(c, k, p)
  {
    hide Format, Full, Accepted, Size;
  }

  /** No shard waits for another: each step of an unfinished shard brings the end nearer. */
  lemma MoveProgresses(c: Config, s: State, k: nat, fault: Option<Err>)
    requires Inv(c, s) && InRange(c, s) && k < |s.procs| && !s.procs[k].pc.Finished?
    ensures InRange(c, Step(c, s, Move(k, fault)))
    ensures 0 <= TotalLeft(c, Step(c, s, Move(k, fault)).procs) < TotalLeft(c, s.procs)
  {
    var p := s.procs[k];
    var t := Step(c, s, Move(k, fault));
    MovesOne(c, s, k, fault);
    ProcStepProgresses(c, k, p, s.cancelled, Possible(s, fault));
    hide *;
    TotalUpdate(c, s.procs, k, t.procs[k]);
    RangeKept(c, s, t, k);
    TotalNonNegative(c, t.procs);
  }

  /** A move changes the shard that makes it, as if there were room in the error channel. */
  lemma MovesOne(c: Config, s: State, k: nat, fault: Option<Err>)
    requires Inv(c, s) && k < |s.procs|
    ensures var t := Step(c, s, Move(k, fault));
            t.procs == s.procs[k := ProcStep(c, k, s.procs[k], s.cancelled, true, Possible(s, fault)).proc]
  {
    var p, room := s.procs[k], |s.errCh| < |s.procs|;
    if p.pc.Failing? {
      NoBlocking(c, s, k);
    }
    RoomForFailing(c, k, p, s.cancelled, room, Possible(s, fault));
    hide Inv, ProcStep;
  }

  /** Only a shard with a failure to report looks at the error channel. */
  lemma RoomForFailing(c: Config, k: nat, p: Proc, cancelled: bool, room: bool, fault: Option<Err>)
    requires k < |c.feeds|
    ensures !p.pc.Failing? ==> ProcStep(c, k, p, cancelled, room, fault) == ProcStep(c, k, p, cancelled, true, fault)
  {
    hide Format, Full, Accepted, Size, Usable;
  }

  lemma RangeKept(c: Config, s: State, t: State, k: nat)
    requires InRange(c, s) && k < |s.procs| == |t.procs| && t.procs == s.procs[k := t.procs[k]]
    requires t.procs[k].i <= |c.feeds[k].rows|
    ensures InRange(c, t) && |t.procs| <= |c.feeds|
    ensures forall j | 0 <= j < |t.procs| :: t.procs[j].i <= |c.feeds[j].rows|
  {
  }

  // ----- Every schedule ends -----

  /** The choice is a step of a shard that has not finished. */
  predicate Moves(s: State, choice: Choice) {
    choice.Move? && choice.k < |s.procs| && !s.procs[choice.k].pc.Finished?
  }

  /** How often unfinished shards are given a step. */
  function MoveCount(c: Config, s: State, schedule: seq<Choice>): nat
    requires |s.procs| == |c.feeds|
    decreases |schedule|
  {
    if schedule == [] then 0
    else (if Moves(s, schedule[0]) then 1 else 0) + MoveCount(c, Step(c, s, schedule[0]), schedule[1..])
  }

  lemma StepLeaves(c: Config, s: State, choice: Choice)
    requires Inv(c, s) && InRange(c, s)
    ensures var t := Step(c, s, choice);
            && Inv(c, t) && InRange(c, t) && TotalLeft(c, t.procs) >= 0
            && TotalLeft(c, t.procs) + (if Moves(s, choice) then 1 else 0) <= TotalLeft(c, s.procs)
  {
    StepInv(c, s, choice);
    TotalNonNegative(c, s.procs);
    hide Inv, ProcStep, TotalLeft;
    if Moves(s, choice) {
      MoveProgresses(c, s, choice.k, choice.fault);
    } else {
      IdleStep(c, s, choice);
    }
  }

  lemma IdleStep(c: Config, s: State, choice: Choice)
    requires |s.procs| == |c.feeds| && !Moves(s, choice)
    ensures Step(c, s, choice).procs == s.procs
  {
    hide Format, Full, Accepted, Size;
  }

  lemma {:induction false} RunLeaves(c: Config, s: State, schedule: seq<Choice>)
    requires Inv(c, s) && InRange(c, s)
    ensures var t := Run(c, s, schedule);
            && Inv(c, t) && InRange(c, t)
            && 0 <= TotalLeft(c, t.procs) <= TotalLeft(c, s.procs) - MoveCount(c, s, schedule)
    decreases |schedule|
  {
    TotalNonNegative(c, s.procs);
    assert |s.procs| == |c.feeds|;
    hide Inv, InRange, Step, TotalLeft, Moves;
    if schedule != [] {
      StepLeaves(c, s, schedule[0]);
      RunLeaves(c, Step(c, s, schedule[0]), schedule[1..]);
    }
  }

  lemma {:induction false} TotalContains(c: Config, procs: seq<Proc>, k: nat)
    requires k < |procs| <= |c.feeds|
    requires forall j | 0 <= j < |procs| :: procs[j].i <= |c.feeds[j].rows|
    ensures StepsLeft(c, k, procs[k]) <= TotalLeft(c, procs)
  {
    var n := |procs| - 1;
    TotalNonNegative(c, procs[..n]);
    if k < n {
      TotalContains(c, procs[..n], k);
    }
  }

  lemma NothingLeft(c: Config, s: State)
    requires InRange(c, s) && TotalLeft(c, s.procs) <= 0
    ensures AllFinished(s)
  {
    forall k | 0 <= k < |s.procs|
      ensures s.procs[k].pc.Finished?
    {
      TotalContains(c, s.procs, k);
      hide TotalLeft;
    }
  }

  lemma InitRange(c: Config)
    ensures InRange(c, Init(c))
  {
  }

  /**
   No schedule can give unfinished shards more steps than there are at the start, and one that gives them
   that many ends with all shards finished.
   */
  lemma EveryScheduleEnds(c: Config, schedule: seq<Choice>)
    ensures MoveCount(c, Init(c), schedule) <= TotalLeft(c, Init(c).procs)
    ensures MoveCount(c, Init(c), schedule) == TotalLeft(c, Init(c).procs) ==> AllFinished(Run(c, Init(c), schedule))
  {
    hide *;
    InitInv(c);
    InitRange(c);
    RunLeaves(c, Init(c), schedule);
    if MoveCount(c, Init(c), schedule) == TotalLeft(c, Init(c).procs) {
      NothingLeft(c, Run(c, Init(c), schedule));
    }
  }

  /** A shard that has not finished, if there is one. */
  function FirstUnfinished(procs: seq<Proc>): (k: nat)
    ensures k <= |procs|
    ensures k < |procs| ==> !procs[k].pc.Finished?
    ensures forall j | 0 <= j < k :: procs[j].pc.Finished?
  {
    if procs == [] || !procs[0].pc.Finished? then 0 else FirstUnfinished(procs[1..]) + 1
  }

  /** Steps, without further faults, until every shard has finished. */
  function Completion(c: Config, s: State): seq<Choice>
    requires Inv(c, s) && InRange(c, s)
    decreases TotalLeft(c, s.procs)
  {
    var k := FirstUnfinished(s.procs);
    if k == |s.procs| then []
    else
      MoveProgresses(c, s, k, None);
      StepInv(c, s, Move(k, None));
      [Move(k, None)] + Completion(c, Step(c, s, Move(k, None)))
  }

  lemma {:induction false} CompletionFinishes(c: Config, s: State)
    requires Inv(c, s) && InRange(c, s)
    ensures AllFinished(Run(c, s, Completion(c, s)))
    ensures AllFinished(s) ==> Completion(c, s) == []
    decreases TotalLeft(c, s.procs)
  {
    var k := FirstUnfinished(s.procs);
    if k < |s.procs| {
      MoveProgresses(c, s, k, None);
      StepInv(c, s, Move(k, None));
      hide Step, Inv, InRange, TotalLeft, Run, FirstUnfinished;
      var t := Step(c, s, Move(k, None));
      CompletionFinishes(c, t);
      RunFirst(c, s, Move(k, None), Completion(c, t));
    }
  }

  lemma RunFirst(c: Config, s: State, choice: Choice, rest: seq<Choice>)
    requires |s.procs| == |c.feeds| && |Step(c, s, choice).procs| == |c.feeds|
    ensures Run(c, s, [choice] + rest) == Run(c, Step(c, s, choice), rest)
  {
    hide Step;
    assert ([choice] + rest)[1..] == rest;
  }

  /** The schedule, followed to the point at which all goroutines have returned. */
  function WaitForAll(c: Config, schedule: seq<Choice>): seq<Choice> {
    InitInv(c);
    RunLeaves(c, Init(c), schedule);
    schedule + Completion(c, Run(c, Init(c), schedule))
  }

  lemma {:induction false} RunAppend(c: Config, s: State, a: seq<Choice>, b: seq<Choice>)
    requires |s.procs| == |c.feeds|
    ensures Run(c, s, a + b) == Run(c, Run(c, s, a), b)
    decreases |a|
  {
    hide Step;
    if a == [] {
      assert a + b == b;
    } else {
      assert (a + b)[1..] == a[1..] + b;
      StepKeepsShards(c, s, a[0]);
      RunAppend(c, Step(c, s, a[0]), a[1..], b);
    }
  }

  lemma StepKeepsShards(c: Config, s: State, choice: Choice)
    requires |s.procs| == |c.feeds|
    ensures |Step(c, s, choice).procs| == |c.feeds|
  {
    hide ProcStep;
  }

  /** All shards finish, and a schedule that has finished them is left as it is. */
  lemma WaitFinishes(c: Config, schedule: seq<Choice>)
    ensures AllFinished(Run(c, Init(c), WaitForAll(c, schedule)))
    ensures AllFinished(Run(c, Init(c), schedule)) ==> WaitForAll(c, schedule) == schedule
  {
    hide Run, Init, Inv, InRange, Completion, AllFinished, TotalLeft, MoveCount;
    InitInv(c);
    InitRange(c);
    RunLeaves(c, Init(c), schedule);
    var s := Run(c, Init(c), schedule);
    assert WaitForAll(c, schedule) == schedule + Completion(c, s);
    hide *;
    RunAppend(c, Init(c), schedule, Completion(c, s));
    CompletionFinishes(c, s);
    assert schedule + [] == schedule;
  }

  // ----- What has been delivered -----

  lemma {:induction false} CommittedPrefix(a: seq<Formatted>, b: seq<Formatted>)
    requires a <= b
    ensures Committed(a) <= Committed(b)
  {
    if a != [] {
      CommittedPrefix(a[1..], b[1..]);
    }
  }

  predicate FramedRows(rows: Formatted) {
    forall i | 0 <= i < |rows| :: Lines.Framed(rows[i])
  }

  /** Encoded rows are always framed. */
  lemma {:induction false} EncodedFramed(rows: seq<CopyText.Row>, end: Option<Stop>, cancelAt: int)
    ensures FramedRows(Usable(false, rows, end, cancelAt).0)
  {
    if rows != [] {
      Lines.EncodedRowFramed(rows[0]);
      EncodedFramed(rows[1..], end, cancelAt - 1);
      hide Lines.Framed, CopyText.EncodeRow;
    }
  }

  /** All rows of the shards below n. */
  function AllOf(c: Config, n: nat): multiset<bytes>
    requires n <= |c.feeds|
  {
    if n == 0 then multiset{} else AllOf(c, n - 1) + multiset(Rows(c, n - 1))
  }

  lemma BatchesCommitRows(c: Config, k: nat)
    requires k < |c.feeds| && FramedRows(Rows(c, k))
    ensures Committed(Batches(c.limits, Rows(c, k))) == multiset(Rows(c, k))
  {
    BatchesExactlyGreedy(c.limits, Rows(c, k), Batches(c.limits, Rows(c, k)));
    CommittedRows(Batches(c.limits, Rows(c, k)));
  }

  /** What one shard has committed, against what it has. */
  lemma CommittedBound(c: Config, k: nat, p: Proc)
    requires k < |c.feeds| && FramedRows(Rows(c, k)) && ProcOk(c, k, p)
    ensures CommittedOf(p) <= multiset(Rows(c, k))
    ensures p.pc == Finished(None) ==> CommittedOf(p) == multiset(Rows(c, k))
  {
    DoneOfProc(c, k, p);
    hide *;
    BatchesCommitRows(c, k);
    CommittedPrefix(p.done, Batches(c.limits, Rows(c, k)));
  }

  lemma DoneOfProc(c: Config, k: nat, p: Proc)
    requires k < |c.feeds| && ProcOk(c, k, p)
    ensures p.done <= Batches(c.limits, Rows(c, k)) && CommittedOf(p) == Committed(p.done)
    ensures p.pc == Finished(None) ==> p.done == Batches(c.limits, Rows(c, k))
  {
    hide Batches, Rows, Committed, SentBy, FaultFree, Progress, AcceptedPrefix, Accepted;
  }

  lemma SumByLast<T>(procs: seq<Proc>, f: Proc -> multiset<T>)
    requires procs != []
    ensures SumBy(procs, f) == SumBy(procs[..|procs| - 1], f) + f(procs[|procs| - 1])
    ensures SumBy([], f) == multiset{}
  {
  }

  lemma AllOfLast(c: Config, n: nat)
    requires 0 < n <= |c.feeds|
    ensures AllOf(c, n) == AllOf(c, n - 1) + multiset(Rows(c, n - 1))
  {
    hide Rows;
  }

  lemma BothBounded<T>(a: multiset<T>, b: multiset<T>, x: multiset<T>, y: multiset<T>)
    requires a <= x && b <= y
    ensures a + b <= x + y
  {
  }

  lemma {:induction false} SumCommitted(c: Config, procs: seq<Proc>)
    requires |procs| <= |c.feeds|
    requires forall k | 0 <= k < |procs| :: FramedRows(Rows(c, k)) && ProcOk(c, k, procs[k])
    ensures SumBy(procs, CommittedOf) <= AllOf(c, |procs|)
    ensures (forall k | 0 <= k < |procs| :: procs[k].pc == Finished(None)) ==>
              SumBy(procs, CommittedOf) == AllOf(c, |procs|)
  {
    hide ProcOk, CommittedOf, FramedRows, Rows;
    if procs != [] {
      var n := |procs| - 1;
      var before, last := procs[..n], procs[n];
      assert forall k | 0 <= k < n :: before[k] == procs[k];
      hide SumBy, AllOf;
      SumCommitted(c, before);
      CommittedBound(c, n, last);
      SumByLast(procs, CommittedOf);
      AllOfLast(c, n + 1);
      BothBounded(SumBy(before, CommittedOf), CommittedOf(last), AllOf(c, n), multiset(Rows(c, n)));
    }
  }

  /**
   At every point of every schedule the target holds no row more often than the shards have it; when
   all shards have succeeded it holds each exactly as often.
   */
  lemma TargetOverAllSchedules(c: Config, schedule: seq<Choice>)
    requires forall k | 0 <= k < |c.feeds| && c.feeds[k].preformatted :: FramedRows(Rows(c, k))
    ensures var s := Run(c, Init(c), schedule);
            s.target <= AllOf(c, |c.feeds|) && (AllSucceeded(s) ==> s.target == AllOf(c, |c.feeds|))
  {
    forall k | 0 <= k < |c.feeds|
      ensures FramedRows(Rows(c, k))
    {
      if !c.feeds[k].preformatted {
        EncodedFramed(c.feeds[k].rows, c.feeds[k].end, |c.feeds[k].rows|);
      }
      hide FramedRows, Usable;
    }
    hide *;
    InitInv(c);
    RunInv(c, Init(c), schedule);
    SumCommitted(c, Run(c, Init(c), schedule).procs);
  }
}
