/**
 One shard among the others (internal/orchestrator/orchestrator.go): without faults of its surroundings a shard
 that is not cancelled does what the pipeline does alone, and the whole copy succeeds exactly when every shard
 would succeed alone.
 */
module ShardRuns {
  import opened Bytes
  import opened Decimal
  import opened Monitor
  import opened Pipeline
  import opened Orchestrator

  /** What the pipeline alone makes of the shard's feed. */
  function Alone(c: Config, k: nat): Report
    requires k < |c.feeds|
  {
    Expected(c.accepts, c.limits, ShardFeed(c, k))
  }

  /** The shard ends with an error: a cancellation, or what the pipeline alone ends with. */
  predicate ErrorExact(c: Config, k: nat, p: Proc, err: Err)
    requires k < |c.feeds|
  {
    if err == Canceled then p.rejected.None?
    else
      var r := Alone(c, k);
      && r.stop.Some? && err == Stopped(r.stop.value) && p.done == r.delivered
      && p.rejected == if r.failed.Some? then Some(|r.failed.value|) else None
  }

  /** How far the shard is on the way of the pipeline alone. */
  predicate Exact(c: Config, k: nat, p: Proc)
    requires k < |c.feeds|
  {
    match p.pc
    case Flushing(_) =>
      Accepted(c.accepts, p.batch) || Alone(c, k) == Report(p.done, Some(p.batch), Some(CopyFailed))
    case CopyFailing(err) =>
      err == Stopped(CopyFailed) && Alone(c, k) == Report(p.done, Some(p.batch), Some(CopyFailed))
    case Copied(final) => final ==> Alone(c, k) == Report(p.done, None, None)
    case Ending => Alone(c, k) == Report(p.done, None, None)
    case Finished(None) => Alone(c, k) == Report(p.done, None, None)
    case Failing(err) => ErrorExact(c, k, p, err)
    case Cancelling(err) => ErrorExact(c, k, p, err)
    case Finished(Some(err)) => ErrorExact(c, k, p, err)
    case _ => true
  }

  lemma AllDelivered(c: Config, k: nat, done: seq<Formatted>)
    requires k < |c.feeds| && DoneOk(c, k, done) && Ended(c, k).None?
    requires done == Batches(c.limits, Rows(c, k))
    ensures Alone(c, k) == Report(done, None, None)
  {
    hide Usable, Batches;
  }

  lemma RowStep(c: Config, k: nat, p: Proc, room: bool)
    requires k < |c.feeds| && ProcOk(c, k, p) && p.pc == Reading && p.i < |c.feeds[k].rows|
    ensures Exact(c, k, ProcStep(c, k, p, false, room, None).proc)
  {
    var feed := ShardFeed(c, k);
    RowCase(feed, p.i);
    hide Usable, Cut, Accepted, AcceptedPrefix, Full, Format, Progress, Batches, Expected, SentBy, DoneOk;
    var f := Format(feed.preformatted, feed.rows[p.i]);
    if f.Some? {
      KeepFilling(c.accepts, c.limits, feed, p.i, p.batch, p.done, f.value);
    } else {
      EndFacts(c.accepts, c.limits, feed, p.batch, p.done);
    }
  }

  lemma EndStep(c: Config, k: nat, p: Proc, cancelled: bool, room: bool)
    requires k < |c.feeds| && ProcOk(c, k, p) && p.pc == Reading && p.i >= |c.feeds[k].rows|
    ensures Exact(c, k, ProcStep(c, k, p, cancelled, room, None).proc)
  {
    var feed := ShardFeed(c, k);
    RowCase(feed, p.i);
    assert Progress(c.accepts, c.limits, feed, p.i, p.batch, p.done) && FaultFree(p);
    hide Usable, Cut, Accepted, AcceptedPrefix, Full, Format, Progress, Batches, Expected, SentBy, DoneOk, Place;
    hide ProcOk;
    EndFacts(c.accepts, c.limits, feed, p.batch, p.done);
  }

  lemma CancelStep(c: Config, k: nat, p: Proc, room: bool)
    requires k < |c.feeds| && ProcOk(c, k, p) && p.pc == Reading && p.i < |c.feeds[k].rows|
    ensures Exact(c, k, ProcStep(c, k, p, true, room, None).proc)
  {
    hide Place, SentBy, DoneOk, Full, Format;
  }

  lemma LaterStep(c: Config, k: nat, p: Proc, cancelled: bool, room: bool)
    requires k < |c.feeds| && ProcOk(c, k, p) && Exact(c, k, p) && p.pc != Reading
    ensures Exact(c, k, ProcStep(c, k, p, cancelled, room, None).proc)
  {
    if p.pc.Flushing? && p.pc.final && Accepted(c.accepts, p.batch) {
      LastAccepted(c, k, p);
    }
    assert FaultFree(p);
    hide Usable, Cut, Accepted, AcceptedPrefix, Full, Format, Expected, Size, ProcOk;
  }

  lemma LastAccepted(c: Config, k: nat, p: Proc)
    requires k < |c.feeds| && ProcOk(c, k, p) && p.pc == Flushing(true) && Accepted(c.accepts, p.batch)
    ensures Alone(c, k) == Report(p.done + [p.batch], None, None)
  {
    SuccessExtends(c.accepts, p.done, p.batch);
    hide SentBy, FaultFree, Accepted, AcceptedPrefix;
    AllDelivered(c, k, p.done + [p.batch]);
  }

  lemma ExactStep(c: Config, k: nat, p: Proc, cancelled: bool, room: bool)
    requires k < |c.feeds| && ProcOk(c, k, p) && Exact(c, k, p)
    ensures Exact(c, k, ProcStep(c, k, p, cancelled, room, None).proc)
  {
    hide ProcOk, Exact, ProcStep;
    if p.pc != Reading {
      LaterStep(c, k, p, cancelled, room);
    } else if p.i >= |c.feeds[k].rows| {
      EndStep(c, k, p, cancelled, room);
    } else if cancelled {
      CancelStep(c, k, p, room);
    } else {
      RowStep(c, k, p, room);
    }
  }

  // ----- Under every schedule -----

  /** The schedule has no fault for the shard. */
  predicate Spared(schedule: seq<Choice>, k: nat) {
    forall i | 0 <= i < |schedule| :: schedule[i].Move? && schedule[i].k == k ==> schedule[i].fault.None?
  }

  lemma StepExact(c: Config, s: State, choice: Choice, k: nat)
    requires Inv(c, s) && k < |s.procs| && Exact(c, k, s.procs[k])
    requires choice.Move? && choice.k == k ==> choice.fault.None?
    ensures k < |Step(c, s, choice).procs| && Exact(c, k, Step(c, s, choice).procs[k])
  {
    OneMoves(c, s, choice, k);
    InvAt(c, s, k);
    hide *;
    if choice.Move? && choice.k == k {
      ExactStep(c, k, s.procs[k], s.cancelled, |s.errCh| < |s.procs|);
    }
  }

  lemma InvAt(c: Config, s: State, k: nat)
    requires Inv(c, s) && k < |s.procs|
    ensures |s.procs| == |c.feeds| && ProcOk(c, k, s.procs[k])
  {
    hide ProcOk, SumBy;
  }

  /** A step without a fault moves the shard it names, and no other. */
  lemma OneMoves(c: Config, s: State, choice: Choice, k: nat)
    requires |s.procs| == |c.feeds| && k < |s.procs|
    requires choice.Move? && choice.k == k ==> choice.fault.None?
    ensures var t := Step(c, s, choice);
            && k < |t.procs|
            && t.procs[k] == if choice.Move? && choice.k == k then
                               ProcStep(c, k, s.procs[k], s.cancelled, |s.errCh| < |s.procs|, None).proc
                             else s.procs[k]
  {
    hide ProcStep;
  }

  lemma SparedParts(schedule: seq<Choice>, k: nat)
    requires Spared(schedule, k) && schedule != []
    ensures schedule[0].Move? && schedule[0].k == k ==> schedule[0].fault.None?
    ensures Spared(schedule[1..], k)
  {
  }

  lemma {:induction false} RunExact(c: Config, s: State, schedule: seq<Choice>, k: nat)
    requires Inv(c, s) && k < |c.feeds| && k < |s.procs| && Exact(c, k, s.procs[k]) && Spared(schedule, k)
    ensures var t := Run(c, s, schedule); Inv(c, t) && k < |t.procs| && Exact(c, k, t.procs[k])
    decreases |schedule|
  {
    assert |s.procs| == |c.feeds|;
    hide Inv, Exact, Step, Spared;
    if schedule != [] {
      SparedParts(schedule, k);
      StepInv(c, s, schedule[0]);
      StepExact(c, s, schedule[0], k);
      RunExact(c, Step(c, s, schedule[0]), schedule[1..], k);
    }
  }

  lemma ExactFromStart(c: Config, schedule: seq<Choice>, k: nat)
    requires k < |c.feeds| && Spared(schedule, k)
    ensures var s := Run(c, Init(c), schedule);
            Inv(c, s) && k < |s.procs| && Exact(c, k, s.procs[k]) && ProcOk(c, k, s.procs[k])
  {
    InitInv(c);
    assert Init(c).procs[k] == NEW_PROC;
    RunExact(c, Init(c), schedule, k);
    hide Run, Init, Exact, ProcOk;
  }

  /**
   Under every schedule without faults for it, a shard that ends otherwise than by a cancellation has delivered
   and reported what the pipeline alone delivers and reports, and ends for the same reason.
   */
  lemma ShardIsPipeline(c: Config, schedule: seq<Choice>, k: nat)
    requires k < |c.feeds| && Spared(schedule, k)
    ensures var p, r := Run(c, Init(c), schedule).procs[k], Expected(c.accepts, c.limits, ShardFeed(c, k));
            p.pc.Finished? && p.pc.result != Some(Canceled) ==>
              && p.done == r.delivered && p.sent == [Start(c.table)] + Trace(c.table, r)
              && p.pc.result == if r.stop.None? then None else Some(Stopped(r.stop.value))
  {
    ExactFromStart(c, schedule, k);
    EndIs(c, k, Run(c, Init(c), schedule).procs[k]);
    hide *;
  }

  lemma EndIs(c: Config, k: nat, p: Proc)
    requires k < |c.feeds| && Exact(c, k, p) && ProcOk(c, k, p)
    ensures p.pc.Finished? && p.pc.result != Some(Canceled) ==>
              var r := Expected(c.accepts, c.limits, ShardFeed(c, k));
              && p.done == r.delivered && p.sent == [Start(c.table)] + Trace(c.table, r)
              && p.pc.result == if r.stop.None? then None else Some(Stopped(r.stop.value))
  {
    hide Expected, Writes, DoneOk, Place, Trace, SentBy;
    if p.pc.Finished? && p.pc.result != Some(Canceled) {
      TraceOf(c, k, p);
    }
  }

  lemma TraceOf(c: Config, k: nat, p: Proc)
    requires k < |c.feeds| && Exact(c, k, p) && FaultFree(p) && p.sent == SentBy(c.table, p)
    requires p.pc.Finished? && p.pc.result != Some(Canceled)
    ensures p.done == Alone(c, k).delivered && p.sent == [Start(c.table)] + Trace(c.table, Alone(c, k))
  {
    hide Expected, Writes;
    var r := Alone(c, k);
    var error := if p.rejected.Some? then [Error(c.table, p.rejected.value)] else [];
    var end := if p.pc == Finished(None) then [End(c.table)] else [];
    assert p.sent == [Start(c.table)] + Writes(c.table, p.done) + error + end;
    assert Trace(c.table, r) == Writes(c.table, r.delivered) + error + end;
    assert [Start(c.table)] + Writes(c.table, p.done) + error + end
        == [Start(c.table)] + (Writes(c.table, p.done) + error + end);
  }

  // ----- Success -----

  /** Nothing from outside disturbs the copy. */
  predicate Undisturbed(schedule: seq<Choice>) {
    forall i | 0 <= i < |schedule| :: schedule[i].Move? && schedule[i].fault.None?
  }

  lemma {:induction false} InSum(procs: seq<Proc>, err: Err) returns (k: nat)
    requires err in SumBy(procs, ReportedOf)
    ensures k < |procs| && err in ReportedOf(procs[k])
  {
    var n := |procs| - 1;
    if err in ReportedOf(procs[n]) {
      k := n;
    } else {
      k := InSum(procs[..n], err);
    }
  }

  /** If a shard has failed then one has failed for a reason of its own. */
  lemma RealError(c: Config, s: State) returns (k: nat)
    requires Inv(c, s) && Causes(s) && AllFinished(s) && !AllSucceeded(s) && !s.parentCancelled
    ensures k < |s.procs| && s.procs[k].pc.Finished? && s.procs[k].pc.result.Some?
    ensures s.procs[k].pc.result.value != Canceled
  {
    NilIffNoFailure(c, s);
    assert s.errCh[0] == Canceled ==> s.cancelled;
    var i :| 0 <= i < |s.errCh| && s.errCh[i] != Canceled;
    assert s.errCh[i] in multiset(s.errCh);
    hide SumBy, ProcOk;
    k := InSum(s.procs, s.errCh[i]);
  }

  /**
   When nothing from outside disturbs it, a copy in which all shards have finished has succeeded if and only if
   the pipeline alone would succeed on every shard, whatever the interleaving.
   */
  lemma SucceedsIff(c: Config, schedule: seq<Choice>)
    requires Undisturbed(schedule) && AllFinished(Run(c, Init(c), schedule))
    ensures AllSucceeded(Run(c, Init(c), schedule))
       <==> forall k | 0 <= k < |c.feeds| :: Expected(c.accepts, c.limits, ShardFeed(c, k)).stop.None?
  {
    var s := Run(c, Init(c), schedule);
    hide *;
    InitInv(c);
    RunInv(c, Init(c), schedule);
    FailureCancels(c, schedule);
    NoParent(schedule);
    forall k | 0 <= k < |c.feeds|
      ensures s.procs[k].pc.Finished? ==> EndsAlone(c, k, s.procs[k])
    {
      SparedAll(schedule, k);
      ExactFromStart(c, schedule, k);
      EndIs(c, k, s.procs[k]);
      EndsAloneIf(c, k, s.procs[k]);
    }
    SuccessIf(c, s);
    if !AllSucceeded(s) {
      var k := RealError(c, s);
      FailsAlone(c, s, k);
    }
  }

  lemma NoParent(schedule: seq<Choice>)
    requires Undisturbed(schedule)
    ensures ParentCancel !in schedule
  {
  }

  lemma SparedAll(schedule: seq<Choice>, k: nat)
    requires Undisturbed(schedule)
    ensures Spared(schedule, k)
  {
  }

  /** A shard that has finished succeeds, or fails for a reason of its own, as the pipeline alone. */
  predicate EndsAlone(c: Config, k: nat, p: Proc)
    requires k < |c.feeds|
  {
    var stop := Expected(c.accepts, c.limits, ShardFeed(c, k)).stop;
    && (p.pc == Finished(None) ==> stop.None?)
    && (p.pc.Finished? && p.pc.result.Some? && p.pc.result.value != Canceled ==> stop.Some?)
  }

  lemma EndsAloneIf(c: Config, k: nat, p: Proc)
    requires k < |c.feeds|
    requires p.pc.Finished? && p.pc.result != Some(Canceled) ==>
               var r := Expected(c.accepts, c.limits, ShardFeed(c, k));
               p.pc.result == if r.stop.None? then None else Some(Stopped(r.stop.value))
    ensures EndsAlone(c, k, p)
  {
    hide Expected;
  }

  lemma SuccessIf(c: Config, s: State)
    requires |s.procs| == |c.feeds| && AllFinished(s)
    requires forall k | 0 <= k < |c.feeds| :: s.procs[k].pc.Finished? ==> EndsAlone(c, k, s.procs[k])
    ensures AllSucceeded(s) ==> forall k | 0 <= k < |c.feeds| :: Expected(c.accepts, c.limits, ShardFeed(c, k)).stop.None?
  {
    hide Expected;
    if AllSucceeded(s) {
      forall k | 0 <= k < |c.feeds|
        ensures Expected(c.accepts, c.limits, ShardFeed(c, k)).stop.None?
      {
        assert s.procs[k].pc == Finished(None);
      }
    }
  }

  lemma FailsAlone(c: Config, s: State, k: nat)
    requires |s.procs| == |c.feeds| && k < |s.procs| && s.procs[k].pc.Finished? && s.procs[k].pc.result.Some?
    requires s.procs[k].pc.result.value != Canceled && EndsAlone(c, k, s.procs[k])
    ensures Expected(c.accepts, c.limits, ShardFeed(c, k)).stop.Some?
  {
    hide Expected;
  }

  lemma UndisturbedFirst(k: nat, rest: seq<Choice>)
    requires Undisturbed(rest)
    ensures Undisturbed([Move(k, None)] + rest)
  {
  }

  /** Following a schedule to the end of all shards adds no disturbance. */
  lemma {:induction false} CompletionUndisturbed(c: Config, s: State)
    requires Inv(c, s) && InRange(c, s)
    ensures Undisturbed(Completion(c, s))
    decreases TotalLeft(c, s.procs)
  {
    var k := FirstUnfinished(s.procs);
    if k < |s.procs| {
      MoveProgresses(c, s, k, None);
      StepInv(c, s, Move(k, None));
      hide Step, Inv, InRange, TotalLeft, FirstUnfinished, Undisturbed;
      CompletionUndisturbed(c, Step(c, s, Move(k, None)));
      UndisturbedFirst(k, Completion(c, Step(c, s, Move(k, None))));
    }
  }

  lemma UndisturbedAppend(a: seq<Choice>, b: seq<Choice>)
    requires Undisturbed(a) && Undisturbed(b)
    ensures Undisturbed(a + b)
  {
  }

  lemma WaitUndisturbed(c: Config, schedule: seq<Choice>)
    requires Undisturbed(schedule)
    ensures Undisturbed(WaitForAll(c, schedule))
  {
    InitInv(c);
    InitRange(c);
    RunLeaves(c, Init(c), schedule);
    var s := Run(c, Init(c), schedule);
    assert WaitForAll(c, schedule) == schedule + Completion(c, s);
    hide *;
    CompletionUndisturbed(c, s);
    UndisturbedAppend(schedule, Completion(c, s));
  }
}
