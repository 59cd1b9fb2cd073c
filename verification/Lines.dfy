/**
 Lines of a COPY stream: how the server cuts a stream into records, and how the PostgreSQL source
 re-frames the stream of COPY TO (internal/source/pgsql/maprows.go).
 */
module Lines {
  import opened Bytes
  import CopyText

  // ----- Records of a stream, as the server reads them -----

  /** A formatted row: one line with its newline, as both encoders produce it. */
  predicate Framed(row: bytes) {
    row != [] && row[|row| - 1] == NL && CopyText.LineBody(row[..|row| - 1])
  }

  /** The lines of a stream, each with its newline. */
  function Records(d: bytes): seq<bytes>
    decreases |d|
  {
    if d == [] then []
    else
      var r := CopyText.ReadLine(d);
      [r.0 + [NL]] + Records(r.1)
  }

  /** Concatenating framed rows loses nothing: the server finds each of them again. */
  lemma {:induction false} RecordsOfConcat(rows: seq<bytes>)
    requires forall i | 0 <= i < |rows| :: Framed(rows[i])
    ensures Records(Concat(rows)) == rows
  {
    if rows != [] {
      var row := rows[0];
      var line := row[..|row| - 1];
      assert row == line + [NL];
      CopyText.ReadLineOfBody(line, Concat(rows[1..]));
      assert Concat(rows) == line + [NL] + Concat(rows[1..]);
      RecordsOfConcat(rows[1..]);
    }
  }

  lemma EncodedRowFramed(row: CopyText.Row)
    ensures Framed(CopyText.EncodeRow(row))
  {
    CopyText.RowIsOneLine(row);
    var line := CopyText.JoinFields(CopyText.EncodeFields(row));
    assert CopyText.EncodeRow(row)[..|line|] == line;
  }

  // ----- bufio.Scanner with ScanLines, and the row loop around it -----

  /** Bytes before the first newline, and bytes after it. */
  function FirstLine(s: bytes): (r: (bytes, bytes))
    ensures s != [] ==> |r.1| < |s|
    ensures NL !in r.0
    ensures s == if NL in s then r.0 + [NL] + r.1 else r.0
    ensures NL !in s ==> r.1 == []
  {
    if s == [] then ([], [])
    else if s[0] == NL then ([], s[1..])
    else
      var r := FirstLine(s[1..]);
      ([s[0]] + r.0, r.1)
  }

  function DropCR(line: bytes): bytes {
    if line != [] && line[|line| - 1] == CR then line[..|line| - 1] else line
  }

  /** Rows handed on, and whether the whole stream was read. */
  datatype Scanned = Scanned(rows: seq<bytes>, ok: bool)

  function Prepend(row: bytes, rest: Scanned): Scanned {
    Scanned([row] + rest.rows, rest.ok)
  }

  /** A line whose bytes reach the buffer limit ends the scan with an error. */
  function Scan(s: bytes, max: nat): Scanned
    decreases |s|
  {
    if s == [] then Scanned([], true)
    else
      var r := FirstLine(s);
      if |r.0| >= max then Scanned([], false)
      else Prepend(DropCR(r.0) + [NL], Scan(r.1, max))
  }

  const MAX_ROW_SIZE: nat := 256 * 1024 * 1024

  /** The scanner loop of MapRows. */
  method MapRows(stream: bytes) returns (rows: seq<bytes>, ok: bool)
    ensures Scanned(rows, ok) == Scan(stream, MAX_ROW_SIZE)
  {
    rows := [];
    ok := true;
    var rest := stream;
    while rest != []
      invariant ok
      invariant Scanned(rows + Scan(rest, MAX_ROW_SIZE).rows, Scan(rest, MAX_ROW_SIZE).ok)
             == Scan(stream, MAX_ROW_SIZE)
      decreases |rest|
    {
      var token := FirstLine(rest);
      if |token.0| >= MAX_ROW_SIZE {
        ok := false;
        return;
      }
      var rowData := DropCR(token.0);
      rowData := rowData + [NL];
      assert rows + ([rowData] + Scan(token.1, MAX_ROW_SIZE).rows)
          == rows + [rowData] + Scan(token.1, MAX_ROW_SIZE).rows;
      rows := rows + [rowData];
      rest := token.1;
    }
  }

  // ----- When the pass-through is exact -----

  predicate Terminated(s: bytes) { s == [] || s[|s| - 1] == NL }

  predicate NoCrLf(s: bytes) {
    forall i | 0 < i < |s| :: !(s[i - 1] == CR && s[i] == NL)
  }

  /** No max bytes in a row without a newline. */
  predicate ShortLines(s: bytes, max: nat) {
    forall i | 0 <= i <= |s| - max :: NL in Window(s, i, max)
  }

  function Window(s: bytes, i: nat, n: nat): (w: bytes)
    requires i + n <= |s|
  {
    s[i..i + n]
  }

  predicate PassesThrough(s: bytes, max: nat) {
    Terminated(s) && NoCrLf(s) && ShortLines(s, max)
  }

  lemma ShortLinesSplit(line: bytes, rest: bytes, max: nat)
    requires NL !in line && max > 0
    ensures ShortLines(line + [NL] + rest, max) <==> |line| < max && ShortLines(rest, max)
  {
    var s := line + [NL] + rest;
    if |line| >= max {
      assert Window(s, 0, max) == line[..max];
      assert NL !in Window(s, 0, max);
    }
    if ShortLines(s, max) {
      forall i | 0 <= i <= |rest| - max
        ensures NL in Window(rest, i, max)
      {
        var j := |line| + 1 + i;
        assert Window(s, j, max) == Window(rest, i, max);
      }
    }
    if |line| < max && ShortLines(rest, max) {
      forall i | 0 <= i <= |s| - max
        ensures NL in Window(s, i, max)
      {
        if i <= |line| {
          assert Window(s, i, max)[|line| - i] == NL;
        } else {
          var j := i - |line| - 1;
          assert Window(s, i, max) == Window(rest, j, max);
        }
      }
    }
  }

  lemma NoCrLfSplit(line: bytes, rest: bytes)
    requires NL !in line
    ensures NoCrLf(line + [NL] + rest) <==> DropCR(line) == line && NoCrLf(rest)
  {
    var s := line + [NL] + rest;
    if NoCrLf(s) {
      assert s[|line|] == NL;
      assert line != [] ==> s[|line| - 1] == line[|line| - 1];
      assert DropCR(line) == line;
      forall i | 0 < i < |rest|
        ensures !(rest[i - 1] == CR && rest[i] == NL)
      {
        var j := |line| + 1 + i;
        assert s[j - 1] == rest[i - 1] && s[j] == rest[i];
      }
    }
    if DropCR(line) == line && NoCrLf(rest) {
      forall i | 0 < i < |s|
        ensures !(s[i - 1] == CR && s[i] == NL)
      {
        if i < |line| {
          assert s[i] == line[i] && line[i] in line;
        } else if i > |line| + 1 {
          var j := i - |line| - 1;
          assert s[i - 1] == rest[j - 1] && s[i] == rest[j];
        }
      }
    }
  }

  /**
   The re-framed stream is byte-identical to what was read if and only if it ends in a newline, has
   no carriage return before a newline, and has no line that fills the buffer.
   */
  lemma {:induction false} PassThroughExact(s: bytes, max: nat)
    requires max > 0
    ensures Scan(s, max).ok && Concat(Scan(s, max).rows) == s <==> PassesThrough(s, max)
    decreases |s|
  {
    if s == [] {
    } else {
      var r := FirstLine(s);
      var row := DropCR(r.0) + [NL];
      var tail := Scan(r.1, max);
      if |r.0| < max {
        assert Scan(s, max).rows[1..] == tail.rows;
        assert Concat(Scan(s, max).rows) == row + Concat(tail.rows);
      }
      if NL in s {
        ShortLinesSplit(r.0, r.1, max);
        NoCrLfSplit(r.0, r.1);
        PassThroughExact(r.1, max);
        assert Terminated(s) == Terminated(r.1) by {
          if r.1 != [] {
            assert s[|s| - 1] == r.1[|r.1| - 1];
          }
        }
        if |r.0| < max {
          if DropCR(r.0) == r.0 {
            PrefixCancels(row, Concat(tail.rows), r.1);
          } else {
            // A dropped carriage return is never made up for.
            ShorterHead(r.0, row, Concat(tail.rows), r.1);
          }
        }
      } else {
        assert s[|s| - 1] in s;
        if |r.0| < max {
          assert NL in row + Concat(tail.rows) by {
            assert (row + Concat(tail.rows))[|row| - 1] == NL;
          }
        }
      }
    }
  }

  lemma PrefixCancels(p: bytes, a: bytes, b: bytes)
    ensures p + a == p + b <==> a == b
  {
    if p + a == p + b {
      assert a == (p + a)[|p|..];
      assert b == (p + b)[|p|..];
    }
  }

  /** The head of the stream has a carriage return where the re-framed head has its newline. */
  lemma ShorterHead(line: bytes, row: bytes, a: bytes, b: bytes)
    requires DropCR(line) != line && row == DropCR(line) + [NL]
    ensures row + a != line + [NL] + b
  {
    assert (row + a)[|line| - 1] == NL;
    assert (line + [NL] + b)[|line| - 1] == CR;
  }

  /** The scan succeeds exactly when no line, the last one included, fills the buffer of 256 MiB. */
  lemma ScanSucceedsIff(s: bytes)
    ensures Scan(s, MAX_ROW_SIZE).ok <==> ShortLines(s, 0x1000_0000)
  {
    ScanOkIff(s, MAX_ROW_SIZE);
  }

  lemma {:induction false} ScanOkIff(s: bytes, max: nat)
    requires max > 0
    ensures Scan(s, max).ok <==> ShortLines(s, max)
    decreases |s|
  {
    if s != [] {
      var r := FirstLine(s);
      if NL in s {
        ShortLinesSplit(r.0, r.1, max);
        ScanOkIff(r.1, max);
      } else if |s| >= max {
        assert Window(s, 0, max) == s[..max];
        assert NL !in Window(s, 0, max);
      }
    }
  }
}
