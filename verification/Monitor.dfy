/** Load statistics: one consumer adds up the events of all pipelines (internal/monitor/monitor.go). */
module Monitor {
  import Multisets

  datatype Event =
    | Start(table: string)
    | End(table: string)
    | Read(table: string, count: int)
    | Write(table: string, count: int, bytes: int)
    | Error(table: string, count: int)
    | Prepare(table: string)
    | Finalize(table: string)
    | Message(table: string)

  /** Counters of one table or phase. */
  datatype Stats = Stats(rowsRead: int, rowsWritten: int, errors: int, bytes: int, isPhase: bool)

  const ZERO := Stats(0, 0, 0, 0, false)

  function Add(a: Stats, b: Stats): Stats {
    Stats(a.rowsRead + b.rowsRead, a.rowsWritten + b.rowsWritten, a.errors + b.errors, a.bytes + b.bytes,
          a.isPhase || b.isPhase)
  }

  /** What an event contributes to its own table.  An error event counts once, whatever its count. */
  function Delta(e: Event): Stats {
    match e
    case Read(_, count) => ZERO.(rowsRead := count)
    case Write(_, count, bytes) => ZERO.(rowsWritten := count, bytes := bytes)
    case Error(_, _) => ZERO.(errors := 1)
    case Prepare(_) => ZERO.(isPhase := true)
    case _ => ZERO
  }

  /** Sum of the contributions to one table. */
  function Tally(events: seq<Event>, table: string): Stats {
    if events == [] then ZERO
    else if events[0].table == table then Add(Delta(events[0]), Tally(events[1..], table))
    else Tally(events[1..], table)
  }

  /** Tables in the order of their first event. */
  function FirstSeen(events: seq<Event>): seq<string> {
    if events == [] then []
    else
      var before := FirstSeen(events[..|events| - 1]);
      var table := events[|events| - 1].table;
      if table in before then before else before + [table]
  }

  // ----- Facts about sums -----

  lemma {:induction false} TallyAppend(a: seq<Event>, b: seq<Event>, table: string)
    ensures Tally(a + b, table) == Add(Tally(a, table), Tally(b, table))
  {
    if a == [] {
      assert a + b == b;
    } else {
      assert (a + b)[1..] == a[1..] + b;
      TallyAppend(a[1..], b, table);
    }
  }

  lemma TallySnoc(events: seq<Event>, e: Event, table: string)
    ensures Tally(events + [e], table)
         == if e.table == table then Add(Tally(events, table), Delta(e)) else Tally(events, table)
  {
    TallyAppend(events, [e], table);
    assert Tally([e][1..], table) == ZERO;
  }

  /** What an event of the table changes, in numbers: an error counts once, whatever its count. */
  predicate Counts(before: Stats, after: Stats, e: Event) {
    match e
    case Read(_, count) => after == before.(rowsRead := before.rowsRead + count)
    case Write(_, count, bytes) =>
      after == before.(rowsWritten := before.rowsWritten + count, bytes := before.bytes + bytes)
    case Error(_, _) => after == before.(errors := before.errors + 1)
    case Prepare(_) => after == before.(isPhase := true)
    case _ => after == before
  }

  /** Counters start at zero, and an event changes those of its own table only. */
  lemma OneMore(events: seq<Event>, e: Event, table: string)
    ensures Tally([], table) == Stats(0, 0, 0, 0, false)
    ensures if e.table == table then Counts(Tally(events, table), Tally(events + [e], table), e)
            else Tally(events + [e], table) == Tally(events, table)
  {
    TallySnoc(events, e, table);
  }

  lemma TallyExtract(x: seq<Event>, e: Event, y: seq<Event>, table: string)
    ensures Tally(x + [e] + y, table) == Tally([e] + (x + y), table)
  {
    TallyAppend(x, y, table);
    TallyAppend(x + [e], y, table);
    TallySnoc(x, e, table);
    assert ([e] + (x + y))[1..] == x + y;
  }

  /** The counters depend on which events arrived, not on the order in which they did. */
  lemma {:induction false} OrderIrrelevant(a: seq<Event>, b: seq<Event>, table: string)
    requires multiset(a) == multiset(b)
    ensures Tally(a, table) == Tally(b, table)
  {
    if a == [] {
      assert |b| == |multiset(b)| == 0;
    } else {
      assert a[0] in multiset(b);
      var i :| 0 <= i < |b| && b[i] == a[0];
      var x, y := b[..i], b[i + 1..];
      assert b == x + [a[0]] + y;
      Multisets.SameRest(a, x, y);
      OrderIrrelevant(a[1..], x + y, table);
      TallyExtract(x, a[0], y, table);
      assert ([a[0]] + (x + y))[1..] == x + y;
    }
  }

  lemma {:induction false} FirstSeenExact(events: seq<Event>)
    ensures forall t :: t in FirstSeen(events) <==> exists i :: 0 <= i < |events| && events[i].table == t
    ensures Distinct(FirstSeen(events))
  {
    if events != [] {
      var n := |events| - 1;
      FirstSeenExact(events[..n]);
      forall t
        ensures t in FirstSeen(events) <==> exists i :: 0 <= i < |events| && events[i].table == t
      {
        if t in FirstSeen(events[..n]) {
          var i :| 0 <= i < n && events[..n][i].table == t;
          assert events[i].table == t;
        }
        if i :| 0 <= i < |events| && events[i].table == t && i < n {
          assert events[..n][i].table == t;
        }
      }
    }
  }

  predicate Distinct(s: seq<string>) {
    forall i, j | 0 <= i < j < |s| :: s[i] != s[j]
  }

  // ----- The monitor -----

  /** The tables in the order of their first event, each with the sum of its events. */
  ghost predicate Tallies(order: seq<string>, tables: map<string, Stats>, events: seq<Event>) {
    && order == FirstSeen(events)
    && (forall t :: t in tables <==> t in order)
    && (forall t | t in tables :: tables[t] == Tally(events, t))
  }

  lemma TalliesSnoc(order: seq<string>, tables: map<string, Stats>, events: seq<Event>, e: Event)
    requires Tallies(order, tables, events)
    ensures var seen := e.table in tables;
            Tallies(if seen then order else order + [e.table],
                    tables[e.table := Add(if seen then tables[e.table] else ZERO, Delta(e))], events + [e])
  {
    hide Tally, Delta, FirstSeen, Add;
    FirstSeenSnoc(events, e);
    if e.table !in tables {
      NoEventsNoTally(events, e.table);
    }
    forall t
      ensures Tally(events + [e], t)
           == if e.table == t then Add(Tally(events, t), Delta(e)) else Tally(events, t)
    {
      TallySnoc(events, e, t);
    }
  }

  lemma FirstSeenSnoc(events: seq<Event>, e: Event)
    ensures FirstSeen(events + [e])
         == if e.table in FirstSeen(events) then FirstSeen(events) else FirstSeen(events) + [e.table]
  {
    assert (events + [e])[..|events|] == events;
  }

  function NumberOfWrites(events: seq<Event>, table: string): nat {
    if events == [] then 0
    else
      var n := |events| - 1;
      NumberOfWrites(events[..n], table) + if events[n].Write? && events[n].table == table then 1 else 0
  }

  /** The number of write events of each table. */
  ghost predicate WritesCounted(counts: map<string, int>, events: seq<Event>) {
    forall t :: (if t in counts then counts[t] else 0) == NumberOfWrites(events, t)
  }

  lemma OneMoreWrite(events: seq<Event>, e: Event, table: string)
    ensures NumberOfWrites(events + [e], table)
         == NumberOfWrites(events, table) + if e.Write? && e.table == table then 1 else 0
  {
    assert (events + [e])[..|events|] == events;
  }

  class Monitor {
    var tables: map<string, Stats>
    var order: seq<string>
    var writeCounts: map<string, int>

    /** The state after these events, whatever their order of arrival. */
    ghost predicate Reflects(events: seq<Event>)
      reads this
    {
      Tallies(order, tables, events) && WritesCounted(writeCounts, events)
    }

    constructor ()
      ensures Reflects([])
    {
      tables, order, writeCounts := map[], [], map[];
    }

    method ProcessEvent(e: Event, ghost events: seq<Event>)
      requires Reflects(events)
      modifies this
      ensures Reflects(events + [e])
    {
      hide *;
      StepReflected(events, e);
      var seen := e.table in tables;
      var ts := Count(if seen then tables[e.table] else ZERO, e);
      if !seen {
        order := order + [e.table];
      }
      tables := tables[e.table := ts];
      CountWrite(e, events);
      IsReflected(events + [e]);
    }

    /** What the next event makes of the state. */
    lemma StepReflected(events: seq<Event>, e: Event)
      requires Reflects(events)
      ensures WritesCounted(writeCounts, events)
      ensures var seen := e.table in tables;
              Tallies(if seen then order else order + [e.table],
                      tables[e.table := Add(if seen then tables[e.table] else ZERO, Delta(e))], events + [e])
    {
      hide Tallies, Add, Delta, WritesCounted;
      TalliesSnoc(order, tables, events, e);
    }

    lemma IsReflected(events: seq<Event>)
      requires Tallies(order, tables, events) && WritesCounted(writeCounts, events)
      ensures Reflects(events)
    {
    }

    method CountWrite(e: Event, ghost events: seq<Event>)
      requires WritesCounted(writeCounts, events)
      modifies this`writeCounts
      ensures WritesCounted(writeCounts, events + [e])
    {
      forall t
        ensures NumberOfWrites(events + [e], t)
             == NumberOfWrites(events, t) + if e.Write? && e.table == t then 1 else 0
      {
        OneMoreWrite(events, e, t);
      }
      hide NumberOfWrites;
      if e.Write? {
        var writes := if e.table in writeCounts then writeCounts[e.table] else 0;
        writeCounts := writeCounts[e.table := 1 + writes];
      }
    }

    /** The counters after an event of the table. */
    static method Count(ts0: Stats, e: Event) returns (ts: Stats)
      ensures ts == Add(ts0, Delta(e))
    {
      ts := ts0;
      match e {
        case Read(_, count) => ts := ts.(rowsRead := ts.rowsRead + count);
        case Write(_, count, bytes) =>
          ts := ts.(rowsWritten := ts.rowsWritten + count, bytes := ts.bytes + bytes);
        case Error(_, _) => ts := ts.(errors := ts.errors + 1);
        case Prepare(_) => ts := ts.(isPhase := true);
        case _ =>
      }
    }

    /** The consumer loop: drains the channel in the order of arrival. */
    method Loop(channel: seq<Event>, ghost events: seq<Event>)
      requires Reflects(events)
      modifies this
      ensures Reflects(events + channel)
    {
      assert events + channel[..0] == events;
      for i := 0 to |channel|
        invariant Reflects(events + channel[..i])
      {
        assert events + channel[..i + 1] == events + channel[..i] + [channel[i]];
        ProcessEvent(channel[i], events + channel[..i]);
      }
      assert channel[..|channel|] == channel;
    }

    /** The last line of the summary: only names with a dot are tables, others are phases. */
    method WriteSummary(ghost events: seq<Event>) returns (written: int, errors: int, bytes: int)
      requires Reflects(events)
      ensures var total := TableTotal(events);
              written == total.rowsWritten && errors == total.errors && bytes == total.bytes
    {
      written, errors, bytes := 0, 0, 0;
      FirstSeenExact(events);
      for i := 0 to |order|
        invariant var sum := OrderTotal(events, order[..i]);
                  written == sum.rowsWritten && errors == sum.errors && bytes == sum.bytes
      {
        assert order[..i + 1][..i] == order[..i];
        var name := order[i];
        assert name in order;
        var ts := tables[name];
        if name != "all tables" && '.' in name {
          written := written + ts.rowsWritten;
          errors := errors + ts.errors;
          bytes := bytes + ts.bytes;
        }
      }
      assert order[..|order|] == order;
      OrderTotalIsTableTotal(events, order);
    }
  }

  lemma {:induction false} NoEventsNoTally(events: seq<Event>, table: string)
    requires table !in FirstSeen(events)
    ensures Tally(events, table) == ZERO
  {
    if events != [] {
      var n := |events| - 1;
      NoEventsNoTally(events[..n], table);
      assert events == events[..n] + [events[n]];
      TallySnoc(events[..n], events[n], table);
    }
  }

  // ----- Totals -----

  predicate IsTable(name: string) { '.' in name }

  /** Sum over the events of all dotted names, in order of arrival. */
  function TableTotal(events: seq<Event>): Stats {
    if events == [] then ZERO
    else if IsTable(events[0].table) then Add(Delta(events[0]), TableTotal(events[1..]))
    else TableTotal(events[1..])
  }

  lemma {:induction false} TotalSnoc(events: seq<Event>, e: Event)
    ensures TableTotal(events + [e])
         == if IsTable(e.table) then Add(TableTotal(events), Delta(e)) else TableTotal(events)
  {
    if events == [] {
      assert events + [e] == [e] && [e][1..] == [];
    } else {
      assert (events + [e])[1..] == events[1..] + [e];
      TotalSnoc(events[1..], e);
    }
  }

  /** What one more event adds to the totals of the summary: only names with a dot count. */
  lemma OneMoreInTotal(events: seq<Event>, e: Event)
    ensures TableTotal([]) == Stats(0, 0, 0, 0, false)
    ensures if '.' in e.table then Counts(TableTotal(events), TableTotal(events + [e]), e)
            else TableTotal(events + [e]) == TableTotal(events)
  {
    TotalSnoc(events, e);
  }

  /** Sum over the dotted names of a list, as the summary computes it. */
  function OrderTotal(events: seq<Event>, order: seq<string>): Stats {
    if order == [] then ZERO
    else
      var name := order[|order| - 1];
      var rest := OrderTotal(events, order[..|order| - 1]);
      if IsTable(name) then Add(rest, Tally(events, name)) else rest
  }

  lemma {:induction false} OrderTotalStep(e: Event, events: seq<Event>, order: seq<string>)
    requires Distinct(order)
    ensures OrderTotal([e] + events, order)
         == if e.table in order && IsTable(e.table) then Add(Delta(e), OrderTotal(events, order))
            else OrderTotal(events, order)
  {
    if order != [] {
      var n := |order| - 1;
      var init, name := order[..n], order[n];
      OrderTotalStep(e, events, init);
      TallyCons(e, events, name);
      assert order == init + [name];
      assert name !in init;
      hide Tally, Delta, Distinct;
      AddSwaps(OrderTotal(events, init), Delta(e), Tally(events, name));
    }
  }

  lemma TallyCons(e: Event, events: seq<Event>, table: string)
    ensures Tally([e] + events, table)
         == if e.table == table then Add(Delta(e), Tally(events, table)) else Tally(events, table)
  {
    assert ([e] + events)[1..] == events;
  }

  lemma AddSwaps(a: Stats, b: Stats, c: Stats)
    ensures Add(a, Add(b, c)) == Add(b, Add(a, c)) && Add(Add(b, a), c) == Add(b, Add(a, c))
  {
  }

  lemma {:induction false} OrderTotalEmpty(order: seq<string>)
    ensures OrderTotal([], order) == ZERO
  {
    if order != [] {
      OrderTotalEmpty(order[..|order| - 1]);
    }
  }

  /** Adding up table by table and adding up event by event give the same totals. */
  lemma {:induction false} OrderTotalIsTableTotal(events: seq<Event>, order: seq<string>)
    requires Distinct(order)
    requires forall i | 0 <= i < |events| :: events[i].table in order
    ensures OrderTotal(events, order) == TableTotal(events)
  {
    if events == [] {
      OrderTotalEmpty(order);
    } else {
      assert events == [events[0]] + events[1..];
      OrderTotalIsTableTotal(events[1..], order);
      OrderTotalStep(events[0], events[1..], order);
    }
  }
}
