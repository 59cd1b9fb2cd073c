/** The loading pipeline of one table: batching, flushing and reporting (internal/pipeline/pipeline.go). */
module Pipeline {
  import opened Bytes
  import opened Decimal
  import opened CopyBatch
  import opened Monitor
  import CopyText
  import Lines
  import Multisets

  // ----- Inputs and events -----

  datatype Limits = Limits(size: int, bytes: int)

  /** Why a run ended early. */
  datatype Stop = Cancelled | BadRow | SourceFailed | NoConnection | CopyFailed

  /**
   What the source yields: its rows, how it ends after the last of them, and the row at which the
   context is first seen cancelled.
   */
  datatype Feed = Feed(preformatted: bool, rows: seq<CopyText.Row>, end: Option<Stop>, cancelAt: nat)

  type Formatted = seq<bytes>

  /** Preformatted rows carry their COPY bytes in the first value; an empty one adds no bytes. */
  function Format(preformatted: bool, row: CopyText.Row): Option<bytes> {
    if !preformatted then Some(CopyText.EncodeRow(row))
    else if row == [] then Some([])
    else if row[0].Bytea? then Some(row[0].data)
    else None
  }

  /** The rows that reach the batch, and the reason if the feed breaks off. */
  function Usable(preformatted: bool, rows: seq<CopyText.Row>, end: Option<Stop>, cancelAt: int)
    : (r: (Formatted, Option<Stop>))
    ensures |r.0| <= |rows|
  {
    if rows == [] then ([], end)
    else if cancelAt == 0 then ([], Some(Cancelled))
    else
      match Format(preformatted, rows[0])
      case None => ([], Some(BadRow))
      case Some(f) =>
        var rest := Usable(preformatted, rows[1..], end, cancelAt - 1);
        ([f] + rest.0, rest.1)
  }

  // ----- Batching -----

  predicate Full(limits: Limits, batch: Formatted) {
    |batch| >= limits.size || Size(batch) >= limits.bytes
  }

  /** Cuts rows into full batches, starting with a partly filled one; also what is left over. */
  function Cut(limits: Limits, rows: Formatted, current: Formatted): (seq<Formatted>, Formatted)
    decreases |rows|
  {
    if rows == [] then ([], current)
    else
      var batch := current + [rows[0]];
      if Full(limits, batch) then
        var rest := Cut(limits, rows[1..], []);
        ([batch] + rest.0, rest.1)
      else Cut(limits, rows[1..], batch)
  }

  function NonEmpty(batch: Formatted): seq<Formatted> {
    if batch == [] then [] else [batch]
  }

  /** All batches of a feed that ends normally. */
  function Batches(limits: Limits, rows: Formatted): seq<Formatted> {
    var r := Cut(limits, rows, []);
    r.0 + NonEmpty(r.1)
  }

  function Flatten(batches: seq<Formatted>): Formatted {
    if batches == [] then [] else batches[0] + Flatten(batches[1..])
  }

  /** Grown row by row, the batch reaches a limit at its last row or not at all. */
  predicate Tight(limits: Limits, batch: Formatted) {
    batch != [] && forall k | 0 < k < |batch| :: !Full(limits, batch[..k])
  }

  /** What it means to batch greedily, without saying how. */
  predicate Greedy(limits: Limits, batches: seq<Formatted>, rows: Formatted) {
    && Flatten(batches) == rows
    && (forall i | 0 <= i < |batches| :: Tight(limits, batches[i]))
    && (forall i | 0 <= i < |batches| - 1 :: Full(limits, batches[i]))
  }

  predicate TightOrEmpty(limits: Limits, batch: Formatted) {
    forall k | 0 < k <= |batch| :: !Full(limits, batch[..k])
  }

  lemma GrowBatch(limits: Limits, current: Formatted, row: bytes)
    requires TightOrEmpty(limits, current)
    ensures Tight(limits, current + [row])
    ensures !Full(limits, current + [row]) ==> TightOrEmpty(limits, current + [row])
  {
    var batch := current + [row];
    forall k | 0 < k <= |current|
      ensures batch[..k] == current[..k] && !Full(limits, batch[..k])
    {
      assert batch[..k] == current[..k];
    }
    assert batch[..|batch|] == batch;
  }

  lemma {:induction false} CutIsGreedy(limits: Limits, rows: Formatted, current: Formatted)
    requires TightOrEmpty(limits, current)
    ensures var r := Cut(limits, rows, current);
            Greedy(limits, r.0 + NonEmpty(r.1), current + rows)
    decreases |rows|
  {
    if rows == [] {
      assert current + rows == current;
      assert Flatten([current]) == current + Flatten([]);
      if current != [] {
        assert TightOrEmpty(limits, current) ==> Tight(limits, current);
      }
    } else {
      var batch := current + [rows[0]];
      assert current + rows == batch + rows[1..];
      GrowBatch(limits, current, rows[0]);
      if Full(limits, batch) {
        CutIsGreedy(limits, rows[1..], []);
        assert [] + rows[1..] == rows[1..];
        var r := Cut(limits, rows[1..], []);
        var tail := r.0 + NonEmpty(r.1);
        assert ([batch] + r.0) + NonEmpty(r.1) == [batch] + tail;
        PrependGreedy(limits, batch, tail, rows[1..]);
      } else {
        CutIsGreedy(limits, rows[1..], batch);
      }
    }
  }

  lemma PrependGreedy(limits: Limits, batch: Formatted, tail: seq<Formatted>, rows: Formatted)
    requires Tight(limits, batch) && Full(limits, batch) && Greedy(limits, tail, rows)
    ensures Greedy(limits, [batch] + tail, batch + rows)
  {
    var all := [batch] + tail;
    assert all[1..] == tail;
    assert forall i | 0 < i < |all| :: all[i] == tail[i - 1];
  }

  /** A full first batch cannot be a proper prefix of another tight first batch. */
  lemma NotShorter(limits: Limits, a: Formatted, b: Formatted, ra: Formatted, rb: Formatted)
    requires a + ra == b + rb
    requires a != [] && Tight(limits, b)
    requires ra != [] ==> Full(limits, a)
    ensures |a| >= |b|
  {
    var rows := a + ra;
    assert a == rows[..|a|];
    var k := if |a| <= |b| then |a| else |b|;
    assert rows[..k] == b[..k];
    assert |a| < |b| ==> |ra| > 0;
  }

  /** Two greedy batchings of the same rows start with the same batch. */
  lemma SameFirstBatch(limits: Limits, a: Formatted, b: Formatted, ra: Formatted, rb: Formatted)
    requires a + ra == b + rb
    requires Tight(limits, a) && Tight(limits, b)
    requires ra != [] ==> Full(limits, a)
    requires rb != [] ==> Full(limits, b)
    ensures a == b && ra == rb
  {
    NotShorter(limits, a, b, ra, rb);
    NotShorter(limits, b, a, rb, ra);
    assert a == (a + ra)[..|a|] == b;
    assert ra == (a + ra)[|a|..] == rb;
  }

  lemma {:induction false} TailGreedy(limits: Limits, batches: seq<Formatted>, rows: Formatted)
    requires Greedy(limits, batches, rows) && batches != []
    ensures Greedy(limits, batches[1..], Flatten(batches[1..]))
    ensures Flatten(batches[1..]) != [] ==> Full(limits, batches[0])
  {
    var tail := batches[1..];
    assert forall i | 0 <= i < |tail| :: tail[i] == batches[i + 1];
    if Flatten(tail) != [] {
      assert |batches| > 1;
    }
  }

  /** Greedy batching is unique. */
  lemma {:induction false} GreedyUnique(limits: Limits, a: seq<Formatted>, b: seq<Formatted>, rows: Formatted)
    requires Greedy(limits, a, rows) && Greedy(limits, b, rows)
    ensures a == b
  {
    assert a != [] ==> Tight(limits, a[0]);
    assert b != [] ==> Tight(limits, b[0]);
    if a != [] && b != [] {
      TailGreedy(limits, a, rows);
      TailGreedy(limits, b, rows);
      SameFirstBatch(limits, a[0], b[0], Flatten(a[1..]), Flatten(b[1..]));
      GreedyUnique(limits, a[1..], b[1..], Flatten(a[1..]));
    }
  }

  /** The pipeline's batches are the one greedy batching of its rows. */
  lemma BatchesExactlyGreedy(limits: Limits, rows: Formatted, batches: seq<Formatted>)
    ensures Greedy(limits, batches, rows) <==> batches == Batches(limits, rows)
  {
    CutIsGreedy(limits, rows, []);
    assert [] + rows == rows;
    if Greedy(limits, batches, rows) {
      GreedyUnique(limits, batches, Batches(limits, rows), rows);
    }
  }

  /** With sensible limits no batch has more rows than allowed, and it stays below the byte limit
      until its last row. */
  lemma BatchWithinLimits(limits: Limits, rows: Formatted, i: int)
    requires limits.size >= 1 && 0 <= i < |Batches(limits, rows)|
    ensures var b := Batches(limits, rows)[i];
            0 < |b| <= limits.size && (|b| > 1 ==> Size(b[..|b| - 1]) < limits.bytes)
  {
    BatchesExactlyGreedy(limits, rows, Batches(limits, rows));
    var b := Batches(limits, rows)[i];
    assert Tight(limits, b);
    if |b| > 1 {
      assert !Full(limits, b[..|b| - 1]);
    }
  }

  /** Every batch sent before the last one has reached one of the two limits. */
  lemma BatchReachesLimit(limits: Limits, rows: Formatted, i: int)
    requires 0 <= i < |Batches(limits, rows)| - 1
    ensures var b := Batches(limits, rows)[i]; |b| >= limits.size || Size(b) >= limits.bytes
  {
    BatchesExactlyGreedy(limits, rows, Batches(limits, rows));
    var b := Batches(limits, rows)[i];
    assert Full(limits, b);
    hide Batches;
  }

  // ----- What one run delivers and reports -----

  predicate Accepted(accepts: bytes -> bool, batch: Formatted) {
    AllAccepted(accepts, Lines.Records(Concat(batch)))
  }

  /** Number of batches before the first one the target rejects. */
  function AcceptedPrefix(accepts: bytes -> bool, batches: seq<Formatted>): (n: nat)
    ensures n <= |batches|
  {
    if batches == [] || !Accepted(accepts, batches[0]) then 0
    else 1 + AcceptedPrefix(accepts, batches[1..])
  }

  datatype Report = Report(delivered: seq<Formatted>, failed: Option<Formatted>, stop: Option<Stop>)

  /** The batches a feed would send if all of them were accepted: no final partial one after a stop. */
  function Plan(limits: Limits, feed: Feed): seq<Formatted> {
    var usable := Usable(feed.preformatted, feed.rows, feed.end, feed.cancelAt);
    if usable.1.None? then Batches(limits, usable.0) else Cut(limits, usable.0, []).0
  }

  function Expected(accepts: bytes -> bool, limits: Limits, feed: Feed): Report {
    var plan := Plan(limits, feed);
    var n := AcceptedPrefix(accepts, plan);
    if n < |plan| then Report(plan[..n], Some(plan[n]), Some(CopyFailed))
    else Report(plan, None, Usable(feed.preformatted, feed.rows, feed.end, feed.cancelAt).1)
  }

  function Writes(table: string, batches: seq<Formatted>): seq<Event> {
    seq(|batches|, i requires 0 <= i < |batches| => Write(table, |batches[i]|, Size(batches[i])))
  }

  function Trace(table: string, report: Report): seq<Event> {
    Writes(table, report.delivered)
    + (if report.failed.Some? then [Error(table, |report.failed.value|)] else [])
    + (if report.stop.None? then [End(table)] else [])
  }

  /** Everything the COPYs of these batches commit. */
  function Committed(batches: seq<Formatted>): multiset<bytes> {
    if batches == [] then multiset{}
    else multiset(Lines.Records(Concat(batches[0]))) + Committed(batches[1..])
  }

  // ----- Facts used by the loop -----

  lemma {:induction false} CommittedSnoc(batches: seq<Formatted>, b: Formatted)
    ensures Committed(batches + [b]) == Committed(batches) + multiset(Lines.Records(Concat(b)))
  {
    if batches == [] {
      assert Committed([b]) == multiset(Lines.Records(Concat(b))) + Committed([]);
    } else {
      assert (batches + [b])[1..] == batches[1..] + [b];
      CommittedSnoc(batches[1..], b);
    }
  }

  lemma WritesSnoc(table: string, batches: seq<Formatted>, b: Formatted)
    ensures Writes(table, batches + [b]) == Writes(table, batches) + [Write(table, |b|, Size(b))]
  {
    hide Size;
    forall i | 0 <= i <= |batches|
      ensures Writes(table, batches + [b])[i] == (Writes(table, batches) + [Write(table, |b|, Size(b))])[i]
    {
      assert (batches + [b])[i] == if i < |batches| then batches[i] else b;
    }
  }

  lemma {:induction false} PrefixAccepted(accepts: bytes -> bool, done: seq<Formatted>, rest: seq<Formatted>)
    requires AcceptedPrefix(accepts, done) == |done|
    ensures AcceptedPrefix(accepts, done + rest) == |done| + AcceptedPrefix(accepts, rest)
  {
    if done == [] {
      assert done + rest == rest;
    } else {
      assert (done + rest)[1..] == done[1..] + rest;
      PrefixAccepted(accepts, done[1..], rest);
    }
  }

  lemma FailureIsFirst(accepts: bytes -> bool, done: seq<Formatted>, b: Formatted, rest: seq<Formatted>)
    requires AcceptedPrefix(accepts, done) == |done| && !Accepted(accepts, b)
    ensures AcceptedPrefix(accepts, done + [b] + rest) == |done|
  {
    assert done + [b] + rest == done + ([b] + rest);
    PrefixAccepted(accepts, done, [b] + rest);
  }

  lemma SuccessExtends(accepts: bytes -> bool, done: seq<Formatted>, b: Formatted)
    requires AcceptedPrefix(accepts, done) == |done| && Accepted(accepts, b)
    ensures AcceptedPrefix(accepts, done + [b]) == |done| + 1
  {
    PrefixAccepted(accepts, done, [b]);
    assert AcceptedPrefix(accepts, [b]) == 1 + AcceptedPrefix(accepts, []);
  }

  lemma {:induction false} UsableAt(preformatted: bool, rows: seq<CopyText.Row>, end: Option<Stop>, cancelAt: int, i: nat)
    requires i <= |Usable(preformatted, rows, end, cancelAt).0| && 0 <= cancelAt
    ensures i <= cancelAt
    ensures var u := Usable(preformatted, rows, end, cancelAt);
            var v := Usable(preformatted, rows[i..], end, cancelAt - i);
            u.0[i..] == v.0 && u.1 == v.1
  {
    hide *;
    var u := Usable(preformatted, rows, end, cancelAt).0;
    if i == 0 {
      assert rows[0..] == rows && u[0..] == u;
    } else {
      UsableRest(preformatted, rows, end, cancelAt);
      DropFirst(rows, i);
      DropFirst(u, i);
      UsableAt(preformatted, rows[1..], end, cancelAt - 1, i - 1);
    }
  }

  lemma DropFirst<T>(s: seq<T>, i: nat)
    requires 0 < i <= |s|
    ensures s[1..][i - 1..] == s[i..]
  {
  }

  lemma UsableRest(preformatted: bool, rows: seq<CopyText.Row>, end: Option<Stop>, cancelAt: int)
    requires |Usable(preformatted, rows, end, cancelAt).0| > 0
    ensures rows != [] && cancelAt != 0
    ensures |Usable(preformatted, rows, end, cancelAt).0| <= |rows|
    ensures var u, v := Usable(preformatted, rows, end, cancelAt), Usable(preformatted, rows[1..], end, cancelAt - 1);
            u.0[1..] == v.0 && u.1 == v.1
  {
  }

  /** What the callback sees at row i. */
  lemma RowCase(feed: Feed, i: nat)
    requires i <= |Usable(feed.preformatted, feed.rows, feed.end, feed.cancelAt).0|
    ensures var u := Usable(feed.preformatted, feed.rows, feed.end, feed.cancelAt);
            && (i == |feed.rows| ==> |u.0| == i && u.1 == feed.end)
            && (i < |feed.rows| && feed.cancelAt <= i ==> |u.0| == i && u.1 == Some(Cancelled))
            && (i < |feed.rows| && feed.cancelAt > i ==>
                  match Format(feed.preformatted, feed.rows[i])
                  case None => |u.0| == i && u.1 == Some(BadRow)
                  case Some(f) => i < |u.0| && u.0[i] == f)
  {
    UsableAt(feed.preformatted, feed.rows, feed.end, feed.cancelAt, i);
    var u := Usable(feed.preformatted, feed.rows, feed.end, feed.cancelAt).0;
    assert |u[i..]| == |u| - i;
    if i < |u| {
      assert u[i..][0] == u[i];
    }
  }

  lemma CutStep(limits: Limits, rows: Formatted, i: nat, current: Formatted)
    requires i < |rows|
    ensures var batch := current + [rows[i]];
            Cut(limits, rows[i..], current)
            == if Full(limits, batch) then
                 ([batch] + Cut(limits, rows[i + 1..], []).0, Cut(limits, rows[i + 1..], []).1)
               else Cut(limits, rows[i + 1..], batch)
  {
    assert rows[i..][1..] == rows[i + 1..];
  }

  // ----- How a run can end -----

  /** The state of the loop: what was delivered, and the batch being filled. */
  predicate Progress(accepts: bytes -> bool, limits: Limits, feed: Feed, i: nat, current: Formatted,
                     done: seq<Formatted>)
  {
    var usable := Usable(feed.preformatted, feed.rows, feed.end, feed.cancelAt).0;
    && i <= |usable|
    && Cut(limits, usable, []).0 == done + Cut(limits, usable[i..], current).0
    && Cut(limits, usable, []).1 == Cut(limits, usable[i..], current).1
    && AcceptedPrefix(accepts, done) == |done|
  }

  lemma StartFacts(accepts: bytes -> bool, limits: Limits, table: string, feed: Feed)
    ensures Progress(accepts, limits, feed, 0, [], [])
    ensures Committed([]) == multiset{}
    ensures Writes(table, []) == []
  {
    var usable := Usable(feed.preformatted, feed.rows, feed.end, feed.cancelAt).0;
    assert usable[0..] == usable;
  }

  /** The same as Progress, with the usable rows as a value. */
  lemma ProgressIs(accepts: bytes -> bool, limits: Limits, feed: Feed, i: nat, current: Formatted,
                   done: seq<Formatted>, usable: Formatted)
    requires usable == Usable(feed.preformatted, feed.rows, feed.end, feed.cancelAt).0
    ensures Progress(accepts, limits, feed, i, current, done) <==>
              && i <= |usable|
              && Cut(limits, usable, []).0 == done + Cut(limits, usable[i..], current).0
              && Cut(limits, usable, []).1 == Cut(limits, usable[i..], current).1
              && AcceptedPrefix(accepts, done) == |done|
  {
    hide Usable, Cut, AcceptedPrefix;
  }

  lemma Regroup(done: seq<Formatted>, batch: Formatted, rest: seq<Formatted>)
    ensures done + ([batch] + rest) == done + [batch] + rest
  {
  }

  lemma KeepFilling(accepts: bytes -> bool, limits: Limits, feed: Feed, i: nat, current: Formatted,
                    done: seq<Formatted>, row: bytes)
    requires Progress(accepts, limits, feed, i, current, done)
    requires var usable := Usable(feed.preformatted, feed.rows, feed.end, feed.cancelAt).0;
             i < |usable| && usable[i] == row
    ensures !Full(limits, current + [row]) ==> Progress(accepts, limits, feed, i + 1, current + [row], done)
    ensures Full(limits, current + [row]) && Accepted(accepts, current + [row]) ==>
              Progress(accepts, limits, feed, i + 1, [], done + [current + [row]])
    ensures Full(limits, current + [row]) && !Accepted(accepts, current + [row]) ==>
              Expected(accepts, limits, feed) == Report(done, Some(current + [row]), Some(CopyFailed))
  {
    hide *;
    var usable := Usable(feed.preformatted, feed.rows, feed.end, feed.cancelAt).0;
    var batch := current + [row];
    CutStep(limits, usable, i, current);
    ProgressIs(accepts, limits, feed, i, current, done, usable);
    if !Full(limits, batch) {
      ProgressIs(accepts, limits, feed, i + 1, batch, done, usable);
    } else {
      Regroup(done, batch, Cut(limits, usable[i + 1..], []).0);
      if Accepted(accepts, batch) {
        SuccessExtends(accepts, done, batch);
        ProgressIs(accepts, limits, feed, i + 1, [], done + [batch], usable);
      } else {
        FailsHere(accepts, limits, feed, done, batch, Cut(limits, usable[i + 1..], []).0, usable);
      }
    }
  }

  /** The plan fails at its first batch that is not accepted. */
  lemma FailsHere(accepts: bytes -> bool, limits: Limits, feed: Feed, done: seq<Formatted>, batch: Formatted,
                  rest: seq<Formatted>, usable: Formatted)
    requires usable == Usable(feed.preformatted, feed.rows, feed.end, feed.cancelAt).0
    requires Cut(limits, usable, []).0 == done + [batch] + rest
    requires AcceptedPrefix(accepts, done) == |done| && !Accepted(accepts, batch)
    ensures Expected(accepts, limits, feed) == Report(done, Some(batch), Some(CopyFailed))
  {
    var more := PlanOf(limits, feed, done + [batch] + rest, usable);
    hide *;
    assert done + [batch] + rest + more == done + [batch] + (rest + more);
    FailureIsFirst(accepts, done, batch, rest + more);
    assert (done + [batch] + (rest + more))[..|done|] == done;
    ExpectedFails(accepts, limits, feed, |done|);
  }

  lemma PlanOf(limits: Limits, feed: Feed, full: seq<Formatted>, usable: Formatted) returns (more: seq<Formatted>)
    requires usable == Usable(feed.preformatted, feed.rows, feed.end, feed.cancelAt).0
    requires Cut(limits, usable, []).0 == full
    ensures Plan(limits, feed) == full + more
  {
    hide Usable, Cut;
    more := if Usable(feed.preformatted, feed.rows, feed.end, feed.cancelAt).1.None?
            then NonEmpty(Cut(limits, usable, []).1) else [];
    assert full + [] == full;
  }

  lemma ExpectedFails(accepts: bytes -> bool, limits: Limits, feed: Feed, n: nat)
    requires var plan := Plan(limits, feed); n < |plan| && AcceptedPrefix(accepts, plan) == n
    ensures var plan := Plan(limits, feed);
            Expected(accepts, limits, feed) == Report(plan[..n], Some(plan[n]), Some(CopyFailed))
  {
    hide Plan, AcceptedPrefix, Usable;
  }

  /** All usable rows have been batched; what remains is the partly filled batch. */
  lemma EndFacts(accepts: bytes -> bool, limits: Limits, feed: Feed, current: Formatted, done: seq<Formatted>)
    requires var usable := Usable(feed.preformatted, feed.rows, feed.end, feed.cancelAt).0;
             Progress(accepts, limits, feed, |usable|, current, done)
    ensures var stop := Usable(feed.preformatted, feed.rows, feed.end, feed.cancelAt).1;
            var expected := Expected(accepts, limits, feed);
            && (stop.Some? || current == [] ==> expected == Report(done, None, stop))
            && (stop.None? && current != [] && Accepted(accepts, current) ==>
                  expected == Report(done + [current], None, None))
            && (stop.None? && current != [] && !Accepted(accepts, current) ==>
                  expected == Report(done, Some(current), Some(CopyFailed)))
  {
    var u := Usable(feed.preformatted, feed.rows, feed.end, feed.cancelAt);
    assert u.0[|u.0|..] == [];
    assert Cut(limits, u.0, []).0 == done;
    var plan := Plan(limits, feed);
    if u.1.Some? || current == [] {
      assert plan == done;
    } else {
      assert plan == done + [current];
      if Accepted(accepts, current) {
        SuccessExtends(accepts, done, current);
      } else {
        assert done + [current] + [] == plan;
        FailureIsFirst(accepts, done, current, []);
        assert plan[..|done|] == done;
      }
    }
  }

  // ----- The run as written -----

  class Pipeline {
    const limits: Limits
    const table: string
    const writer: CopyWriter
    /** Events sent to the monitor so far. */
    var events: seq<Event>

    constructor (limits: Limits, table: string, writer: CopyWriter)
      ensures this.limits == limits && this.table == table && this.writer == writer && events == []
    {
      this.limits, this.table, this.writer, events := limits, table, writer, [];
    }

    method Flush(batch: Batch) returns (ok: bool)
      requires batch.Valid()
      modifies this, writer
      ensures ok == Accepted(writer.accepts, batch.data)
      ensures ok ==> writer.committed == old(writer.committed) + multiset(Lines.Records(Concat(batch.data)))
      ensures !ok ==> writer.committed == old(writer.committed)
      ensures ok ==> events == old(events) + [Write(table, |batch.data|, Size(batch.data))]
      ensures !ok ==> events == old(events) + [Error(table, |batch.data|)]
    {
      ok := writer.FlushBatch(batch);
      if ok {
        events := events + [Write(table, batch.rowCount, batch.byteCount)];
      } else {
        events := events + [Error(table, batch.rowCount)];
      }
    }

    /** Sends one batch and extends the record of what was delivered. */
    method FlushNext(batch: Batch, ghost done: seq<Formatted>, ghost before: multiset<bytes>, ghost sent: seq<Event>)
      returns (ok: bool)
      requires batch.Valid()
      requires writer.committed == before + Committed(done)
      requires events == sent + Writes(table, done)
      modifies this, writer
      ensures ok == Accepted(writer.accepts, batch.data)
      ensures ok ==> writer.committed == before + Committed(done + [batch.data])
      ensures !ok ==> writer.committed == before + Committed(done)
      ensures ok ==> events == sent + Writes(table, done + [batch.data])
      ensures !ok ==> events == sent + (Writes(table, done) + [Error(table, |batch.data|)])
    {
      hide *;
      ok := Flush(batch);
      if ok {
        CommittedSnoc(done, batch.data);
        Multisets.Associate(before, Committed(done), multiset(Lines.Records(Concat(batch.data))));
        WritesSnoc(table, done, batch.data);
      }
    }

    /** Puts a formatted row into the batch and says whether it is full. */
    method AddFormatted(batch: Batch, formatted: bytes) returns (full: bool)
      requires batch.Valid()
      modifies batch
      ensures batch.Valid() && batch.data == old(batch.data) + [formatted]
      ensures full == Full(limits, batch.data)
    {
      SizeSnoc(batch.data, formatted);
      hide Size;
      batch.data := batch.data + [formatted];
      batch.rowCount := batch.rowCount + 1;
      batch.byteCount := batch.byteCount + |formatted|;
      full := batch.rowCount >= limits.size || batch.byteCount >= limits.bytes;
    }

    /** The callback for one row: it stops the run, or takes the row and perhaps sends the batch. */
    method TakeRow(feed: Feed, i: nat, batch: Batch, ghost done: seq<Formatted>, ghost before: multiset<bytes>,
                   ghost sent: seq<Event>)
      returns (stop: Option<Stop>, ghost now: seq<Formatted>)
      requires i < |feed.rows| && batch.Valid()
      requires i <= |Usable(feed.preformatted, feed.rows, feed.end, feed.cancelAt).0|
      requires Progress(writer.accepts, limits, feed, i, batch.data, done)
      requires writer.committed == before + Committed(done) && events == sent + Writes(table, done)
      modifies this, writer, batch
      ensures stop.None? ==>
                && batch.Valid()
                && i + 1 <= |Usable(feed.preformatted, feed.rows, feed.end, feed.cancelAt).0|
                && Progress(writer.accepts, limits, feed, i + 1, batch.data, now)
                && writer.committed == before + Committed(now) && events == sent + Writes(table, now)
      ensures stop.Some? ==>
                var report := Expected(writer.accepts, limits, feed);
                && stop == report.stop && writer.committed == before + Committed(report.delivered)
                && events == sent + Trace(table, report)
    {
      hide Progress, Usable, Expected, Committed, Writes, Accepted, Format, Cut, AcceptedPrefix, Size, Full;
      now := done;
      RowCase(feed, i);
      if feed.cancelAt <= i {
        EndFacts(writer.accepts, limits, feed, batch.data, done);
        return Some(Cancelled), done;
      }
      var formatted := Format(feed.preformatted, feed.rows[i]);
      if formatted.None? {
        EndFacts(writer.accepts, limits, feed, batch.data, done);
        return Some(BadRow), done;
      }
      KeepFilling(writer.accepts, limits, feed, i, batch.data, done, formatted.value);
      var full := AddFormatted(batch, formatted.value);
      if full {
        var ok := FlushNext(batch, done, before, sent);
        if !ok {
          return Some(CopyFailed), done;
        }
        now := done + [batch.data];
        batch.Reset();
      }
      return None, now;
    }

    /**
     Delivers exactly the expected batches, in order, and reports each of them; a run stopped by the
     feed or by the target keeps what was delivered before.
     */
    method Run(feed: Feed, acquired: bool) returns (stop: Option<Stop>)
      modifies this, writer
      ensures !acquired ==>
                && stop == Some(NoConnection) && writer.committed == old(writer.committed)
                && events == old(events) + [Start(table)]
      ensures acquired ==>
                var report := Expected(writer.accepts, limits, feed);
                && stop == report.stop
                && writer.committed == old(writer.committed) + Committed(report.delivered)
                && events == old(events) + [Start(table)] + Trace(table, report)
    {
      hide Progress, Usable, Expected, Committed, Writes, Accepted, Format, Cut, AcceptedPrefix, Size;
      events := events + [Start(table)];
      if !acquired {
        return Some(NoConnection);
      }
      ghost var before, sent := writer.committed, events;
      ghost var done: seq<Formatted> := [];
      var batch := new Batch(limits.size, limits.bytes);
      StartFacts(writer.accepts, limits, table, feed);
      for i := 0 to |feed.rows|
        invariant fresh(batch) && batch.Valid()
        invariant i <= |Usable(feed.preformatted, feed.rows, feed.end, feed.cancelAt).0|
        invariant Progress(writer.accepts, limits, feed, i, batch.data, done)
        invariant writer.committed == before + Committed(done)
        invariant events == sent + Writes(table, done)
      {
        stop, done := TakeRow(feed, i, batch, done, before, sent);
        if stop.Some? {
          return;
        }
      }
      stop := SendRest(feed, batch, done, before, sent);
    }

    /** After the last row: the batch that is left, and the event for the end. */
    method SendRest(feed: Feed, batch: Batch, ghost done: seq<Formatted>, ghost before: multiset<bytes>,
                    ghost sent: seq<Event>)
      returns (stop: Option<Stop>)
      requires batch.Valid()
      requires |feed.rows| <= |Usable(feed.preformatted, feed.rows, feed.end, feed.cancelAt).0|
      requires Progress(writer.accepts, limits, feed, |feed.rows|, batch.data, done)
      requires writer.committed == before + Committed(done) && events == sent + Writes(table, done)
      modifies this, writer
      ensures var report := Expected(writer.accepts, limits, feed);
              && stop == report.stop && writer.committed == before + Committed(report.delivered)
              && events == sent + Trace(table, report)
    {
      hide Progress, Usable, Expected, Committed, Writes, Accepted, Format, Cut, AcceptedPrefix, Size;
      RowCase(feed, |feed.rows|);
      EndFacts(writer.accepts, limits, feed, batch.data, done);
      if feed.end.Some? {
        return feed.end;
      }
      if batch.rowCount > 0 {
        var ok := FlushNext(batch, done, before, sent);
        if !ok {
          return Some(CopyFailed);
        }
      }
      events := events + [End(table)];
      return None;
    }
  }

  // ----- What a report means -----

  lemma {:induction false} FlattenAppend(a: seq<Formatted>, b: seq<Formatted>)
    ensures Flatten(a + b) == Flatten(a) + Flatten(b)
  {
    if a == [] {
      assert a + b == b;
    } else {
      assert (a + b)[1..] == a[1..] + b;
      FlattenAppend(a[1..], b);
    }
  }

  lemma {:induction false} AcceptedPrefixAccepted(accepts: bytes -> bool, batches: seq<Formatted>, i: int)
    requires 0 <= i < AcceptedPrefix(accepts, batches)
    ensures Accepted(accepts, batches[i])
  {
    if i > 0 {
      AcceptedPrefixAccepted(accepts, batches[1..], i - 1);
    }
  }

  lemma {:induction false} UsableEnd(preformatted: bool, rows: seq<CopyText.Row>, end: Option<Stop>, cancelAt: int)
    ensures var u := Usable(preformatted, rows, end, cancelAt);
            u.1.None? <==> end.None? && |u.0| == |rows|
  {
    if rows != [] {
      UsableEnd(preformatted, rows[1..], end, cancelAt - 1);
    }
  }

  /** A part of the batches is all of them once it has all of their rows. */
  lemma PartIsAll(limits: Limits, rows: Formatted, n: nat)
    requires n <= |Batches(limits, rows)|
    ensures Flatten(Batches(limits, rows)[..n]) <= rows
    ensures Flatten(Batches(limits, rows)[..n]) == rows <==> n == |Batches(limits, rows)|
  {
    var all := Batches(limits, rows);
    BatchesExactlyGreedy(limits, rows, all);
    assert all == all[..n] + all[n..];
    FlattenAppend(all[..n], all[n..]);
    if n < |all| {
      assert Tight(limits, all[n]);
    } else {
      assert all[..n] == all;
    }
    hide Batches;
  }

  /**
   The rows delivered are always a prefix of the feed's rows that ends at a batch boundary of the
   greedy batching.  The run reports success exactly when the source ended well and every row of it was
   delivered.
   */
  lemma DeliveredIsBatchPrefix(accepts: bytes -> bool, limits: Limits, feed: Feed)
    ensures var rows := Usable(feed.preformatted, feed.rows, feed.end, feed.cancelAt).0;
            var report := Expected(accepts, limits, feed);
            && report.delivered <= Batches(limits, rows)
            && Flatten(report.delivered) <= rows
            && (report.stop.None? <==>
                  feed.end.None? && Flatten(report.delivered) == rows && |rows| == |feed.rows|)
            && (report.failed.Some? ==> !Accepted(accepts, report.failed.value))
            && forall i | 0 <= i < |report.delivered| :: Accepted(accepts, report.delivered[i])
  {
    var u := Usable(feed.preformatted, feed.rows, feed.end, feed.cancelAt);
    var all, plan := Batches(limits, u.0), Plan(limits, feed);
    var report := Expected(accepts, limits, feed);
    var n := |report.delivered|;
    assert n == AcceptedPrefix(accepts, plan);
    assert report.delivered == plan[..n] == all[..n];
    UsableEnd(feed.preformatted, feed.rows, feed.end, feed.cancelAt);
    PartIsAll(limits, u.0, n);
    hide Usable, Batches, Flatten, AcceptedPrefix;
    forall i | 0 <= i < n
      ensures Accepted(accepts, report.delivered[i])
    {
      AcceptedPrefixAccepted(accepts, plan, i);
    }
    if n < |plan| {
      RejectedAfterPrefix(accepts, plan);
    }
  }

  /** A row that cannot be sent: of a preformatted feed, one whose first value is not a byte string. */
  predicate Unsendable(feed: Feed, i: nat)
    requires i < |feed.rows|
  {
    feed.preformatted && feed.rows[i] != [] && !feed.rows[i][0].Bytea?
  }

  /** The row is reached before a cancellation is seen, and can be sent. */
  predicate Passes(feed: Feed, i: nat)
    requires i < |feed.rows|
  {
    i < feed.cancelAt && !Unsendable(feed, i)
  }

  /** The first row at which the run breaks off. */
  predicate FirstBreak(feed: Feed, i: nat)
    requires i < |feed.rows|
  {
    !Passes(feed, i) && forall j | 0 <= j < i :: Passes(feed, j)
  }

  /**
   Why a run ends.  A rejected batch comes first; else the first row that is seen cancelled or cannot be sent,
   the cancellation before the row itself; else what the source ends with.
   */
  lemma StopReason(accepts: bytes -> bool, limits: Limits, feed: Feed)
    ensures var r := Expected(accepts, limits, feed);
            && (r.failed.Some? ==> r.stop == Some(CopyFailed))
            && (r.failed.None? ==>
                  || ((forall i | 0 <= i < |feed.rows| :: Passes(feed, i)) && r.stop == feed.end)
                  || exists i | 0 <= i < |feed.rows| ::
                       FirstBreak(feed, i) && r.stop == Some(if feed.cancelAt <= i then Cancelled else BadRow))
  {
    var u := Usable(feed.preformatted, feed.rows, feed.end, feed.cancelAt);
    assert Expected(accepts, limits, feed).failed.None? ==> Expected(accepts, limits, feed).stop == u.1;
    BreaksAt(feed, |u.0|);
    hide Usable, Expected, Passes, FirstBreak;
  }

  /** Where the usable rows of a feed end, and why. */
  lemma BreaksAt(feed: Feed, n: nat)
    requires n == |Usable(feed.preformatted, feed.rows, feed.end, feed.cancelAt).0|
    ensures var stop := Usable(feed.preformatted, feed.rows, feed.end, feed.cancelAt).1;
            if n == |feed.rows| then (forall i | 0 <= i < |feed.rows| :: Passes(feed, i)) && stop == feed.end
            else n < |feed.rows| && FirstBreak(feed, n) && stop == Some(if feed.cancelAt <= n then Cancelled else BadRow)
  {
    hide Usable;
    RowCase(feed, n);
    forall j | 0 <= j < n
      ensures Passes(feed, j)
    {
      RowCase(feed, j);
    }
  }

  /** The batches a run sends: those delivered and the one that failed. */
  function Attempted(report: Report): seq<Formatted> {
    report.delivered + if report.failed.Some? then [report.failed.value] else []
  }

  /**
   A batch is sent when it reaches one of the two limits; only one that ends with the last row of a source
   that ended well may be below them.
   */
  lemma AttemptedReachesLimit(accepts: bytes -> bool, limits: Limits, feed: Feed, i: int)
    requires 0 <= i < |Attempted(Expected(accepts, limits, feed))|
    ensures var sent := Attempted(Expected(accepts, limits, feed));
            && sent[i] != []
            && (|sent[i]| >= limits.size || Size(sent[i]) >= limits.bytes
                || (i == |sent| - 1 && feed.end.None? && |Flatten(sent)| == |feed.rows|))
  {
    var u := Usable(feed.preformatted, feed.rows, feed.end, feed.cancelAt);
    var all, plan := Batches(limits, u.0), Plan(limits, feed);
    var sent := Attempted(Expected(accepts, limits, feed));
    assert sent <= plan <= all;
    assert sent == all[..|sent|];
    BatchesExactlyGreedy(limits, u.0, all);
    assert Tight(limits, all[i]);
    hide Usable, Size, Expected, Cut, Flatten;
    CutIsFull(limits, u.0, []);
    if i == |all| - 1 && !Full(limits, all[i]) {
      UsableEnd(feed.preformatted, feed.rows, feed.end, feed.cancelAt);
      assert plan == all;
      assert sent == all;
    }
  }

  /** What is cut off is full; what is left is not sent unless the source ends. */
  lemma {:induction false} CutIsFull(limits: Limits, rows: Formatted, current: Formatted)
    ensures forall b <- Cut(limits, rows, current).0 :: Full(limits, b)
    decreases |rows|
  {
    hide Full;
    if rows != [] {
      var batch := current + [rows[0]];
      CutIsFull(limits, rows[1..], []);
      CutIsFull(limits, rows[1..], batch);
    }
  }

  lemma {:induction false} RejectedAfterPrefix(accepts: bytes -> bool, batches: seq<Formatted>)
    requires AcceptedPrefix(accepts, batches) < |batches|
    ensures !Accepted(accepts, batches[AcceptedPrefix(accepts, batches)])
  {
    if Accepted(accepts, batches[0]) {
      RejectedAfterPrefix(accepts, batches[1..]);
    }
  }

  /** Sums of the counts and bytes of write events. */
  function WriteTotals(events: seq<Event>): (int, int) {
    if events == [] then (0, 0)
    else
      var rest := WriteTotals(events[1..]);
      match events[0]
      case Write(_, count, bytes) => (count + rest.0, bytes + rest.1)
      case _ => rest
  }

  lemma {:induction false} WriteTotalsAppend(a: seq<Event>, b: seq<Event>)
    ensures var x, y := WriteTotals(a), WriteTotals(b); WriteTotals(a + b) == (x.0 + y.0, x.1 + y.1)
  {
    if a == [] {
      assert a + b == b;
    } else {
      assert (a + b)[1..] == a[1..] + b;
      WriteTotalsAppend(a[1..], b);
    }
  }

  lemma {:induction false} ConcatFlattenSize(rows: Formatted)
    ensures |Concat(rows)| == Size(rows)
  {
    if rows != [] {
      ConcatFlattenSize(rows[1..]);
    }
  }

  lemma {:induction false} WritesTotals(table: string, batches: seq<Formatted>)
    ensures WriteTotals(Writes(table, batches)) == (|Flatten(batches)|, Size(Flatten(batches)))
  {
    if batches != [] {
      assert Writes(table, batches)[1..] == Writes(table, batches[1..]);
      WritesTotals(table, batches[1..]);
      SizeAppend(batches[0], Flatten(batches[1..]));
    }
  }

  /** Reported rows and bytes are those delivered, however the run ends. */
  lemma ReportedIsDelivered(table: string, report: Report)
    ensures WriteTotals([Start(table)] + Trace(table, report))
         == (|Flatten(report.delivered)|, |Concat(Flatten(report.delivered))|)
  {
    WritesTotals(table, report.delivered);
    ConcatFlattenSize(Flatten(report.delivered));
    var writes := Writes(table, report.delivered);
    var error := if report.failed.Some? then [Error(table, |report.failed.value|)] else [];
    var end := if report.stop.None? then [End(table)] else [];
    WriteTotalsAppend(writes, error);
    WriteTotalsAppend(writes + error, end);
    WriteTotalsAppend([Start(table)], Trace(table, report));
    assert WriteTotals([Start(table)]) == WriteTotals([Start(table)][1..]) == (0, 0);
    if report.failed.Some? {
      assert WriteTotals(error) == WriteTotals(error[1..]) == (0, 0);
    }
    if report.stop.None? {
      assert WriteTotals(end) == WriteTotals(end[1..]) == (0, 0);
    }
  }

  /** For framed rows, what the target commits is the delivered rows themselves. */
  lemma {:induction false} CommittedRows(batches: seq<Formatted>)
    requires forall i | 0 <= i < |Flatten(batches)| :: Lines.Framed(Flatten(batches)[i])
    ensures Committed(batches) == multiset(Flatten(batches))
  {
    if batches != [] {
      var b, rest := batches[0], Flatten(batches[1..]);
      forall i | 0 <= i < |b|
        ensures Lines.Framed(b[i])
      {
        assert b[i] == Flatten(batches)[i];
      }
      forall i | 0 <= i < |rest|
        ensures Lines.Framed(rest[i])
      {
        assert rest[i] == Flatten(batches)[|b| + i];
      }
      Lines.RecordsOfConcat(b);
      CommittedRows(batches[1..]);
    }
  }

  // ----- Acceptance, row by row -----

  lemma {:induction false} CommittedAccepted(accepts: bytes -> bool, batches: seq<Formatted>, r: bytes)
    requires AcceptedPrefix(accepts, batches) == |batches| && r in Committed(batches)
    ensures accepts(r)
  {
    var records := Lines.Records(Concat(batches[0]));
    if r in records {
      var i :| 0 <= i < |records| && records[i] == r;
      assert AllAccepted(accepts, records);
    } else {
      CommittedAccepted(accepts, batches[1..], r);
    }
  }

  lemma {:induction false} AllBatchesAccepted(accepts: bytes -> bool, batches: seq<Formatted>)
    requires forall i | 0 <= i < |Flatten(batches)| ::
               Lines.Framed(Flatten(batches)[i]) && accepts(Flatten(batches)[i])
    ensures AcceptedPrefix(accepts, batches) == |batches|
  {
    if batches != [] {
      var b, rest := batches[0], Flatten(batches[1..]);
      forall i | 0 <= i < |b|
        ensures Lines.Framed(b[i]) && accepts(b[i])
      {
        assert b[i] == Flatten(batches)[i];
      }
      forall i | 0 <= i < |rest|
        ensures Lines.Framed(rest[i]) && accepts(rest[i])
      {
        assert rest[i] == Flatten(batches)[|b| + i];
      }
      Lines.RecordsOfConcat(b);
      AllBatchesAccepted(accepts, batches[1..]);
    }
  }

  // ----- Rows that are encoded here -----

  /** The bytes of all COPY streams sent, one after the other. */
  function Sent(batches: seq<Formatted>): bytes {
    if batches == [] then [] else Concat(batches[0]) + Sent(batches[1..])
  }

  lemma {:induction false} SentIsConcat(batches: seq<Formatted>)
    ensures Sent(batches) == Concat(Flatten(batches))
  {
    if batches != [] {
      SentIsConcat(batches[1..]);
      ConcatAppend(batches[0], Flatten(batches[1..]));
    }
  }

  /** Rows that are not preformatted reach the batch in their COPY encoding, up to a cancellation. */
  lemma {:induction false} UsableEncoded(rows: seq<CopyText.Row>, end: Option<Stop>, cancelAt: nat)
    ensures var u := Usable(false, rows, end, cancelAt).0; u == CopyText.EncodeRows(rows)[..|u|]
    ensures cancelAt >= |rows| ==> |Usable(false, rows, end, cancelAt).0| == |rows|
  {
    if rows != [] && cancelAt > 0 {
      UsableEncoded(rows[1..], end, cancelAt - 1);
      assert CopyText.EncodeRows(rows)[1..] == CopyText.EncodeRows(rows[1..]);
      assert CopyText.EncodeRows(rows)[0] == CopyText.EncodeRow(rows[0]);
      hide CopyText.EncodeRow;
    }
  }

  /**
   However a run over rows that are not preformatted ends, PostgreSQL reads a prefix of the rows from all that
   is delivered, if and only if no row of it has width zero; after a success the prefix is all of them.
   */
  lemma RowsArrive(accepts: bytes -> bool, limits: Limits, feed: Feed)
    requires !feed.preformatted
    ensures var report := Expected(accepts, limits, feed);
            var n := |Flatten(report.delivered)|;
            && n <= |feed.rows| && (report.stop.None? ==> n == |feed.rows|)
            && var rows := feed.rows[..n];
            CopyText.Decode(Sent(report.delivered)) == CopyText.WireRows(rows) <==> forall row <- rows :: row != []
  {
    var report := Expected(accepts, limits, feed);
    var u := Usable(false, feed.rows, feed.end, feed.cancelAt).0;
    DeliveredIsBatchPrefix(accepts, limits, feed);
    UsableEncoded(feed.rows, feed.end, feed.cancelAt);
    SentIsConcat(report.delivered);
    var n := |Flatten(report.delivered)|;
    assert Flatten(report.delivered) == u[..n] == CopyText.EncodeRows(feed.rows)[..n];
    assert CopyText.EncodeRows(feed.rows[..n]) == CopyText.EncodeRows(feed.rows)[..n];
    CopyText.CopyRoundTrip(feed.rows[..n]);
  }

  // ----- PostgreSQL to PostgreSQL -----

  /** The feed of the PostgreSQL source: each scanned line is one preformatted value. */
  function PassThroughFeed(scanned: Lines.Scanned): Feed {
    Feed(true, seq(|scanned.rows|, i requires 0 <= i < |scanned.rows| => [CopyText.Bytea(scanned.rows[i])]),
         if scanned.ok then None else Some(SourceFailed), |scanned.rows|)
  }

  lemma {:induction false} UsablePassThrough(rows: seq<CopyText.Row>, lines: seq<bytes>, end: Option<Stop>)
    requires |rows| == |lines|
    requires forall i | 0 <= i < |rows| :: rows[i] == [CopyText.Bytea(lines[i])]
    ensures Usable(true, rows, end, |rows|) == (lines, end)
  {
    if rows != [] {
      UsablePassThrough(rows[1..], lines[1..], end);
      assert Format(true, rows[0]) == Some(lines[0]);
      assert [lines[0]] + lines[1..] == lines;
    }
  }

  /** Every line, with its newline, is one record of the server: none ends in a backslash that escapes it. */
  predicate FramedLines(stream: bytes) {
    forall i | 0 <= i < |Lines.Scan(stream, Lines.MAX_ROW_SIZE).rows| ::
      Lines.Framed(Lines.Scan(stream, Lines.MAX_ROW_SIZE).rows[i])
  }

  /** The run over a COPY stream succeeds and sends every byte of it on, in order. */
  predicate Identical(accepts: bytes -> bool, limits: Limits, stream: bytes) {
    var report := Expected(accepts, limits, PassThroughFeed(Lines.Scan(stream, Lines.MAX_ROW_SIZE)));
    report.stop.None? && Sent(report.delivered) == stream
  }

  lemma IdenticalWhenAccepted(accepts: bytes -> bool, limits: Limits, stream: bytes)
    ensures var batches := Batches(limits, Lines.Scan(stream, Lines.MAX_ROW_SIZE).rows);
            Identical(accepts, limits, stream)
            <==> Lines.PassesThrough(stream, Lines.MAX_ROW_SIZE) && AcceptedPrefix(accepts, batches) == |batches|
  {
    var scanned := Lines.Scan(stream, Lines.MAX_ROW_SIZE);
    var feed := PassThroughFeed(scanned);
    var report := Expected(accepts, limits, feed);
    UsablePassThrough(feed.rows, scanned.rows, feed.end);
    Lines.PassThroughExact(stream, Lines.MAX_ROW_SIZE);
    DeliveredIsBatchPrefix(accepts, limits, feed);
    BatchesExactlyGreedy(limits, scanned.rows, Batches(limits, scanned.rows));
    SentIsConcat(report.delivered);
  }

  lemma AcceptedRowByRow(accepts: bytes -> bool, batches: seq<Formatted>)
    requires forall i | 0 <= i < |Flatten(batches)| :: Lines.Framed(Flatten(batches)[i])
    ensures AcceptedPrefix(accepts, batches) == |batches| <==> forall row <- Flatten(batches) :: accepts(row)
  {
    if AcceptedPrefix(accepts, batches) == |batches| {
      CommittedRows(batches);
      forall row | row in Flatten(batches)
        ensures accepts(row)
      {
        assert row in multiset(Flatten(batches));
        CommittedAccepted(accepts, batches, row);
      }
    } else if forall row <- Flatten(batches) :: accepts(row) {
      AllBatchesAccepted(accepts, batches);
    }
  }

  lemma {:induction false} PrefixMeansAll(accepts: bytes -> bool, batches: seq<Formatted>)
    ensures AcceptedPrefix(accepts, batches) == |batches| <==> forall batch <- batches :: Accepted(accepts, batch)
  {
    if batches != [] {
      PrefixMeansAll(accepts, batches[1..]);
      hide Accepted;
      assert forall batch <- batches :: batch == batches[0] || batch in batches[1..];
    }
  }

  /**
   A run over a COPY stream succeeds with every byte of the stream sent on unchanged, in order, if and only
   if the stream can be re-framed line by line and the target accepts what it is sent: each batch, and, for
   lines that are records, each record of the stream.
   */
  lemma PassThroughByteIdentical(accepts: bytes -> bool, limits: Limits, stream: bytes)
    ensures Identical(accepts, limits, stream)
        <==> && Lines.PassesThrough(stream, Lines.MAX_ROW_SIZE)
             && forall batch <- Batches(limits, Lines.Scan(stream, Lines.MAX_ROW_SIZE).rows) :: Accepted(accepts, batch)
    ensures FramedLines(stream) ==>
              (Identical(accepts, limits, stream)
               <==> && Lines.PassesThrough(stream, Lines.MAX_ROW_SIZE)
                    && forall record <- Lines.Records(stream) :: accepts(record))
  {
    var rows := Lines.Scan(stream, Lines.MAX_ROW_SIZE).rows;
    var batches := Batches(limits, rows);
    BatchesExactlyGreedy(limits, rows, batches);
    IdenticalWhenAccepted(accepts, limits, stream);
    PrefixMeansAll(accepts, batches);
    hide Identical, Accepted;
    if FramedLines(stream) {
      AcceptedRowByRow(accepts, batches);
      if Lines.PassesThrough(stream, Lines.MAX_ROW_SIZE) {
        Lines.PassThroughExact(stream, Lines.MAX_ROW_SIZE);
        Lines.RecordsOfConcat(rows);
      }
    }
  }

  /** A stream with a line that fills the buffer fails the run, unless the target rejects a batch before. */
  lemma LongLineFails(accepts: bytes -> bool, limits: Limits, stream: bytes)
    ensures var r := Expected(accepts, limits, PassThroughFeed(Lines.Scan(stream, Lines.MAX_ROW_SIZE)));
            r.failed.None? ==> r.stop == if Lines.ShortLines(stream, 0x1000_0000) then None else Some(SourceFailed)
  {
    var scanned := Lines.Scan(stream, Lines.MAX_ROW_SIZE);
    var feed := PassThroughFeed(scanned);
    UsablePassThrough(feed.rows, scanned.rows, feed.end);
    Lines.ScanSucceedsIff(stream);
    hide Lines.Scan, Lines.ShortLines, Plan, AcceptedPrefix;
  }
}
