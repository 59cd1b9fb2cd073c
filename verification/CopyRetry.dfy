/** Isolating bad rows by binary search, and the retry built on it (internal/copy/copy.go). */
module CopyRetry {
  import opened Bytes
  import opened CopyBatch
  import Lines

  // ----- Specification: a linear scan over the acceptance of each row -----

  /** Whether the target accepts each row. */
  function Verdicts(accepts: bytes -> bool, rows: seq<bytes>): (good: seq<bool>)
    ensures |good| == |rows|
  {
    seq(|rows|, i requires 0 <= i < |rows| => accepts(rows[i]))
  }

  predicate AllGood(good: seq<bool>, lo: int, hi: int)
    requires 0 <= lo <= hi + 1 <= |good|
  {
    forall i | lo <= i <= hi :: good[i]
  }

  /** Indices in lo..hi (both included) of the rejected rows, ascending. */
  function BadIndices(good: seq<bool>, lo: int, hi: int): seq<int>
    requires 0 <= lo <= hi + 1 <= |good|
    decreases hi - lo + 1
  {
    if lo > hi then []
    else if good[lo] then BadIndices(good, lo + 1, hi)
    else [lo] + BadIndices(good, lo + 1, hi)
  }

  /** The elements whose verdict is as wanted, in source order. */
  function Select<R>(rows: seq<R>, good: seq<bool>, want: bool): seq<R>
    requires |rows| == |good|
  {
    if rows == [] then []
    else if good[0] == want then [rows[0]] + Select(rows[1..], good[1..], want)
    else Select(rows[1..], good[1..], want)
  }

  // ----- The probes of the search -----

  /** One COPY of rows lo..hi issued by the search, and whether it was accepted. */
  datatype Probe = Probe(lo: int, hi: int, ok: bool)

  function Probes(good: seq<bool>, lo: int, hi: int): seq<Probe>
    requires 0 <= lo <= hi + 1 <= |good|
    decreases hi - lo + 1
  {
    if lo > hi then []
    else if AllGood(good, lo, hi) then [Probe(lo, hi, true)]
    else if lo == hi then [Probe(lo, hi, false)]
    else
      var mid := (lo + hi) / 2;
      [Probe(lo, hi, false)] + (Probes(good, lo, mid) + Probes(good, mid + 1, hi))
  }

  // ----- Linear-scan facts -----

  lemma {:induction false} BadIndicesSplit(good: seq<bool>, lo: int, mid: int, hi: int)
    requires 0 <= lo <= mid + 1 && mid <= hi && hi + 1 <= |good|
    ensures BadIndices(good, lo, hi) == BadIndices(good, lo, mid) + BadIndices(good, mid + 1, hi)
    decreases mid - lo + 1
  {
    if lo <= mid {
      BadIndicesSplit(good, lo + 1, mid, hi);
    }
  }

  predicate Ascending(s: seq<int>) {
    forall i, j | 0 <= i < j < |s| :: s[i] < s[j]
  }

  /** The scan lists exactly the rejected indices of the range, each once and in ascending order. */
  lemma {:induction false} BadIndicesExact(good: seq<bool>, lo: int, hi: int)
    requires 0 <= lo <= hi + 1 <= |good|
    ensures forall i :: i in BadIndices(good, lo, hi) <==> lo <= i <= hi && !good[i]
    ensures Ascending(BadIndices(good, lo, hi))
    decreases hi - lo + 1
  {
    if lo <= hi {
      BadIndicesExact(good, lo + 1, hi);
      var rest := BadIndices(good, lo + 1, hi);
      assert forall k | 0 <= k < |rest| :: rest[k] in rest;
    }
  }

  lemma AllGoodIffNoBad(good: seq<bool>, lo: int, hi: int)
    requires 0 <= lo <= hi + 1 <= |good|
    ensures AllGood(good, lo, hi) <==> BadIndices(good, lo, hi) == []
  {
    BadIndicesExact(good, lo, hi);
    if !AllGood(good, lo, hi) {
      var i :| lo <= i <= hi && !good[i];
      assert i in BadIndices(good, lo, hi);
    } else if BadIndices(good, lo, hi) != [] {
      assert BadIndices(good, lo, hi)[0] in BadIndices(good, lo, hi);
    }
  }

  lemma {:induction false} SelectAppend<R>(a: seq<R>, b: seq<R>, ga: seq<bool>, gb: seq<bool>, want: bool)
    requires |a| == |ga| && |b| == |gb|
    ensures Select(a + b, ga + gb, want) == Select(a, ga, want) + Select(b, gb, want)
  {
    if a == [] {
      assert a + b == b && ga + gb == gb;
    } else {
      assert (a + b)[1..] == a[1..] + b && (ga + gb)[1..] == ga[1..] + gb;
      SelectAppend(a[1..], b, ga[1..], gb, want);
    }
  }

  lemma SelectStep<R>(rows: seq<R>, good: seq<bool>, i: nat, want: bool)
    requires |rows| == |good| && i < |rows|
    ensures Select(rows[i..], good[i..], want)
         == (if good[i] == want then [rows[i]] else []) + Select(rows[i + 1..], good[i + 1..], want)
  {
    assert rows[i..][1..] == rows[i + 1..];
    assert good[i..][1..] == good[i + 1..];
  }

  /** One more row goes to the selection that wants it. */
  lemma SelectTakes<R>(done: seq<R>, rows: seq<R>, good: seq<bool>, i: nat, want: bool)
    requires |rows| == |good| && i < |rows|
    ensures done + Select(rows[i..], good[i..], want)
         == (if good[i] == want then done + [rows[i]] else done) + Select(rows[i + 1..], good[i + 1..], want)
  {
    SelectStep(rows, good, i, want);
    var rest := Select(rows[i + 1..], good[i + 1..], want);
    hide Select;
    assert done + ([rows[i]] + rest) == done + [rows[i]] + rest;
    assert [] + rest == rest;
  }

  lemma NothingTaken<R>(rest: seq<R>)
    ensures [] + rest == rest
  {
  }

  lemma SelectEnd<R>(rows: seq<R>, good: seq<bool>)
    requires |rows| == |good| == 0
    ensures forall want :: Select(rows, good, want) == []
  {
  }

  /** The two selections share out the rows. */
  lemma {:induction false} SelectCounts<R>(rows: seq<R>, good: seq<bool>)
    requires |rows| == |good|
    ensures |Select(rows, good, true)| + |Select(rows, good, false)| == |rows|
    ensures AllGood(good, 0, |good| - 1) <==> Select(rows, good, false) == []
    ensures AllGood(good, 0, |good| - 1) ==> Select(rows, good, true) == rows
  {
    if rows != [] {
      SelectCounts(rows[1..], good[1..]);
      assert AllGood(good, 0, |good| - 1) <==> good[0] && AllGood(good[1..], 0, |good| - 2) by {
        assert forall i | 0 <= i <= |good| - 2 :: good[1..][i] == good[i + 1];
        assert forall i | 1 <= i <= |good| - 1 :: good[i] == good[1..][i - 1];
      }
    }
  }

  /** Selecting keeps order and multiplicity: it is a filter by the acceptance of the row itself. */
  lemma {:induction false} SelectIsFilter(accepts: bytes -> bool, rows: seq<bytes>, want: bool, r: bytes)
    ensures var kept := multiset(Select(rows, Verdicts(accepts, rows), want));
            kept[r] == if accepts(r) == want then multiset(rows)[r] else 0
  {
    if rows != [] {
      assert Verdicts(accepts, rows)[1..] == Verdicts(accepts, rows[1..]);
      SelectIsFilter(accepts, rows[1..], want, r);
      assert rows == [rows[0]] + rows[1..];
    }
  }

  lemma {:induction false} SelectedAreRows<R>(rows: seq<R>, good: seq<bool>, want: bool)
    requires |rows| == |good|
    ensures forall r <- Select(rows, good, want) :: exists i :: 0 <= i < |rows| && rows[i] == r && good[i] == want
  {
    if rows != [] {
      SelectedAreRows(rows[1..], good[1..], want);
      forall r | r in Select(rows, good, want)
        ensures exists i :: 0 <= i < |rows| && rows[i] == r && good[i] == want
      {
        if r in Select(rows[1..], good[1..], want) {
          var i :| 0 <= i < |rows| - 1 && rows[1..][i] == r && good[1..][i] == want;
          assert rows[i + 1] == r && good[i + 1] == want;
        } else {
          assert rows[0] == r && good[0] == want;
        }
      }
    }
  }

  // ----- Bounds on the number of probes -----

  function CeilLog2(n: nat): nat {
    if n <= 1 then 0 else 1 + CeilLog2((n + 1) / 2)
  }

  function Pow2(k: nat): nat {
    if k == 0 then 1 else 2 * Pow2(k - 1)
  }

  /** CeilLog2(n) is the least exponent whose power of two reaches n. */
  lemma {:induction false} CeilLog2Least(n: nat)
    requires n > 0
    ensures n <= Pow2(CeilLog2(n))
    ensures n > 1 ==> Pow2(CeilLog2(n) - 1) < n
    decreases n
  {
    if n > 1 {
      CeilLog2Least((n + 1) / 2);
    }
  }

  lemma {:induction false} CeilLog2Monotone(m: nat, n: nat)
    requires m <= n
    ensures CeilLog2(m) <= CeilLog2(n)
    decreases n
  {
    if m > 1 {
      CeilLog2Monotone((m + 1) / 2, (n + 1) / 2);
    }
  }

  lemma MulMonotone(k: nat, a: nat, b: nat)
    requires a <= b
    ensures k * a <= k * b
  {
  }

  /** Two halves with k1 and k2 bad rows, each searched one level lower. */
  lemma ProbeArithmetic(k1: nat, k2: nat, l: nat, l1: nat, l2: nat)
    requires k1 + k2 > 0 && l1 <= l && l2 <= l
    ensures 1 + (1 + 2 * k1 * l1) + (1 + 2 * k2 * l2) <= 1 + 2 * (k1 + k2) * (l + 1)
  {
    MulMonotone(2 * k1, l1, l);
    MulMonotone(2 * k2, l2, l);
    var a, b := 2 * k1, 2 * k2;
    assert (a + b) * (l + 1) == a * l + b * l + (a + b);
  }

  /** Bound on the probes for n rows with k bad ones among them. */
  function ProbeLimit(k: nat, n: nat): int {
    1 + 2 * k * CeilLog2(n)
  }

  lemma ProbeLimitStep(k1: nat, k2: nat, n1: nat, n2: nat, n: nat)
    requires k1 + k2 > 0 && n > 1 && n1 <= (n + 1) / 2 && n2 <= (n + 1) / 2
    ensures 1 + ProbeLimit(k1, n1) + ProbeLimit(k2, n2) <= ProbeLimit(k1 + k2, n)
  {
    CeilLog2Monotone(n1, (n + 1) / 2);
    CeilLog2Monotone(n2, (n + 1) / 2);
    ProbeArithmetic(k1, k2, CeilLog2((n + 1) / 2), CeilLog2(n1), CeilLog2(n2));
  }

  lemma ProbeLimitPositive(k: nat, n: nat)
    ensures ProbeLimit(k, n) >= 1
  {
    MulMonotone(2 * k, 0, CeilLog2(n));
  }

  lemma ProbesLength(good: seq<bool>, lo: int, hi: int)
    requires 0 <= lo <= hi < |good|
    ensures AllGood(good, lo, hi) || lo == hi ==> |Probes(good, lo, hi)| == 1
    ensures !AllGood(good, lo, hi) && lo < hi ==>
              |Probes(good, lo, hi)|
              == 1 + |Probes(good, lo, (lo + hi) / 2)| + |Probes(good, (lo + hi) / 2 + 1, hi)|
  {
  }

  /**
   n rows with k bad ones among them cost at most 1 + 2k * ceil(log2 n) probes, and never more than
   2n - 1.
   */
  lemma {:induction false} ProbeBound(good: seq<bool>, lo: int, hi: int)
    requires 0 <= lo <= hi < |good|
    ensures |Probes(good, lo, hi)| <= ProbeLimit(|BadIndices(good, lo, hi)|, hi - lo + 1)
    ensures |Probes(good, lo, hi)| <= 2 * (hi - lo + 1) - 1
    decreases hi - lo
  {
    hide *;
    AllGoodIffNoBad(good, lo, hi);
    ProbesLength(good, lo, hi);
    if AllGood(good, lo, hi) || lo == hi {
      ProbeLimitPositive(|BadIndices(good, lo, hi)|, hi - lo + 1);
    } else {
      var mid := (lo + hi) / 2;
      ProbeBound(good, lo, mid);
      ProbeBound(good, mid + 1, hi);
      BadIndicesSplit(good, lo, mid, hi);
      ProbeLimitStep(|BadIndices(good, lo, mid)|, |BadIndices(good, mid + 1, hi)|,
                     mid - lo + 1, hi - mid, hi - lo + 1);
    }
  }

  // ----- What the successful probes cover -----

  predicate Covers(p: Probe, i: int) { p.ok && p.lo <= i <= p.hi }

  /** How many successful probes cover index i. */
  function Cover(probes: seq<Probe>, i: int): nat {
    if probes == [] then 0 else (if Covers(probes[0], i) then 1 else 0) + Cover(probes[1..], i)
  }

  lemma {:induction false} CoverAppend(a: seq<Probe>, b: seq<Probe>, i: int)
    ensures Cover(a + b, i) == Cover(a, i) + Cover(b, i)
  {
    if a == [] {
      assert a + b == b;
    } else {
      assert (a + b)[1..] == a[1..] + b;
      CoverAppend(a[1..], b, i);
    }
  }

  /**
   The successful probes are pairwise disjoint and their union is exactly the accepted indices: each
   accepted index is covered once, any other index not at all.
   */
  lemma {:induction false} SuccessfulProbesPartition(good: seq<bool>, lo: int, hi: int, i: int)
    requires 0 <= lo <= hi + 1 <= |good|
    ensures Cover(Probes(good, lo, hi), i) == if lo <= i <= hi && good[i] then 1 else 0
    decreases hi - lo + 1
  {
    if lo <= hi {
      var probes := Probes(good, lo, hi);
      if AllGood(good, lo, hi) || lo == hi {
        assert |probes| == 1 && probes[1..] == [];
      } else {
        var mid := (lo + hi) / 2;
        var left, right := Probes(good, lo, mid), Probes(good, mid + 1, hi);
        SuccessfulProbesPartition(good, lo, mid, i);
        SuccessfulProbesPartition(good, mid + 1, hi, i);
        CoverAppend(left, right, i);
        assert probes[1..] == left + right;
      }
    }
  }

  // ----- What the COPYs of the search commit -----

  predicate AllFramed(rows: seq<bytes>) {
    forall r <- rows :: Lines.Framed(r)
  }

  /** Accepted rows among rows lo..hi. */
  function GoodIn(accepts: bytes -> bool, rows: seq<bytes>, lo: int, hi: int): multiset<bytes>
    requires 0 <= lo <= hi + 1 <= |rows|
  {
    multiset(Select(rows[lo..hi + 1], Verdicts(accepts, rows)[lo..hi + 1], true))
  }

  lemma GoodInSplit(accepts: bytes -> bool, rows: seq<bytes>, lo: int, mid: int, hi: int)
    requires 0 <= lo <= mid + 1 && mid <= hi && hi + 1 <= |rows|
    ensures GoodIn(accepts, rows, lo, hi) == GoodIn(accepts, rows, lo, mid) + GoodIn(accepts, rows, mid + 1, hi)
  {
    var good := Verdicts(accepts, rows);
    assert rows[lo..hi + 1] == rows[lo..mid + 1] + rows[mid + 1..hi + 1];
    assert good[lo..hi + 1] == good[lo..mid + 1] + good[mid + 1..hi + 1];
    SelectAppend(rows[lo..mid + 1], rows[mid + 1..hi + 1], good[lo..mid + 1], good[mid + 1..hi + 1], true);
  }

  /** A COPY of a range succeeds exactly when each of its rows is acceptable. */
  lemma RangeFacts(accepts: bytes -> bool, rows: seq<bytes>, lo: int, hi: int)
    requires 0 <= lo <= hi + 1 <= |rows| && AllFramed(rows)
    ensures Lines.Records(Concat(rows[lo..hi + 1])) == rows[lo..hi + 1]
    ensures AllAccepted(accepts, rows[lo..hi + 1]) <==> AllGood(Verdicts(accepts, rows), lo, hi)
    ensures AllGood(Verdicts(accepts, rows), lo, hi) ==> GoodIn(accepts, rows, lo, hi) == multiset(rows[lo..hi + 1])
    ensures lo == hi && !AllGood(Verdicts(accepts, rows), lo, hi) ==> GoodIn(accepts, rows, lo, hi) == multiset{}
  {
    var part, good := rows[lo..hi + 1], Verdicts(accepts, rows);
    forall i | 0 <= i < |part|
      ensures Lines.Framed(part[i])
    {
      assert part[i] == rows[lo + i] && rows[lo + i] in rows;
    }
    Lines.RecordsOfConcat(part);
    assert AllAccepted(accepts, part) <==> AllGood(good, lo, hi) by {
      assert forall i | 0 <= i < |part| :: accepts(part[i]) == good[lo + i];
      assert forall i | lo <= i <= hi :: good[i] == accepts(part[i - lo]);
    }
    SelectCounts(part, good[lo..hi + 1]);
    if AllGood(good, lo, hi) {
      assert AllGood(good[lo..hi + 1], 0, |part| - 1);
    } else if lo == hi {
      assert Select(part, good[lo..hi + 1], true) == [];
    }
  }

  /** What a failed probe of more than one row leaves to its two halves. */
  lemma SplitFacts(accepts: bytes -> bool, rows: seq<bytes>, lo: int, hi: int)
    requires 0 <= lo < hi < |rows|
    ensures var mid, good := (lo + hi) / 2, Verdicts(accepts, rows);
            && BadIndices(good, lo, hi) == BadIndices(good, lo, mid) + BadIndices(good, mid + 1, hi)
            && GoodIn(accepts, rows, lo, hi) == GoodIn(accepts, rows, lo, mid) + GoodIn(accepts, rows, mid + 1, hi)
            && (!AllGood(good, lo, hi) ==>
                  Probes(good, lo, hi)
                  == [Probe(lo, hi, false)] + (Probes(good, lo, mid) + Probes(good, mid + 1, hi)))
  {
    hide Verdicts, GoodIn, BadIndices, AllGood;
    BadIndicesSplit(Verdicts(accepts, rows), lo, (lo + hi) / 2, hi);
    GoodInSplit(accepts, rows, lo, (lo + hi) / 2, hi);
  }

  /** Ranges that the search does not split. */
  lemma LeafFacts(accepts: bytes -> bool, rows: seq<bytes>, lo: int, hi: int)
    requires 0 <= lo <= hi + 1 <= |rows| && AllFramed(rows)
    ensures var good := Verdicts(accepts, rows);
            && (lo > hi ==>
                  && BadIndices(good, lo, hi) == [] && Probes(good, lo, hi) == []
                  && GoodIn(accepts, rows, lo, hi) == multiset{})
            && (lo <= hi && AllGood(good, lo, hi) ==>
                  && BadIndices(good, lo, hi) == [] && Probes(good, lo, hi) == [Probe(lo, hi, true)]
                  && GoodIn(accepts, rows, lo, hi) == multiset(rows[lo..hi + 1]))
            && (lo == hi && !AllGood(good, lo, hi) ==>
                  && BadIndices(good, lo, hi) == [lo] && Probes(good, lo, hi) == [Probe(lo, hi, false)]
                  && GoodIn(accepts, rows, lo, hi) == multiset{})
  {
    RangeFacts(accepts, rows, lo, hi);
    AllGoodIffNoBad(Verdicts(accepts, rows), lo, hi);
    if lo > hi {
      assert rows[lo..hi + 1] == [];
    }
  }

  lemma CleanBatchFacts(accepts: bytes -> bool, rows: seq<bytes>)
    requires AllFramed(rows)
    ensures var clean := Select(rows, Verdicts(accepts, rows), true);
            Lines.Records(Concat(clean)) == clean && AllAccepted(accepts, clean)
  {
    var clean := Select(rows, Verdicts(accepts, rows), true);
    SelectedAreRows(rows, Verdicts(accepts, rows), true);
    forall i | 0 <= i < |clean|
      ensures Lines.Framed(clean[i]) && accepts(clean[i])
    {
      assert clean[i] in clean;
    }
    Lines.RecordsOfConcat(clean);
  }

  /** The three COPYs a retry may make: everything, the search, and the rows that are left. */
  lemma RetryFacts<R>(accepts: bytes -> bool, rows: seq<R>, formatted: seq<bytes>)
    requires |rows| == |formatted| && AllFramed(formatted)
    ensures var good := Verdicts(accepts, formatted);
            var kept, rejected := Select(formatted, good, true), Select(rows, good, false);
            && Lines.Records(Concat(formatted)) == formatted
            && Lines.Records(Concat(kept)) == kept
            && AllAccepted(accepts, kept)
            && (AllAccepted(accepts, formatted) <==> rejected == [])
            && (rejected == [] ==> kept == formatted)
            && GoodIn(accepts, formatted, 0, |formatted| - 1) == multiset(kept)
            && |Select(rows, good, true)| == |kept|
            && |kept| + |rejected| == |rows|
            && (kept == [] ==> multiset(kept) == multiset{})
  {
    var good := Verdicts(accepts, formatted);
    assert formatted[0..|formatted|] == formatted && good[0..|good|] == good;
    RangeFacts(accepts, formatted, 0, |formatted| - 1);
    CleanBatchFacts(accepts, formatted);
    SelectCounts(rows, good);
    SelectCounts(formatted, good);
    SelectSameLength(rows, formatted, good, true);
    SelectSameLength(rows, formatted, good, false);
  }

  lemma {:induction false} SelectSameLength<R, S>(a: seq<R>, b: seq<S>, good: seq<bool>, want: bool)
    requires |a| == |b| == |good|
    ensures |Select(a, good, want)| == |Select(b, good, want)|
  {
    if a != [] {
      SelectSameLength(a[1..], b[1..], good[1..], want);
    }
  }

  lemma JoinTargets(before: multiset<bytes>, a: multiset<bytes>, b: multiset<bytes>, all: multiset<bytes>)
    requires all == a + b
    ensures before + multiset{} + a + b == before + all
  {
  }

  lemma JoinProbes(sent: seq<Probe>, first: seq<Probe>, left: seq<Probe>, right: seq<Probe>, all: seq<Probe>)
    requires all == first + (left + right)
    ensures sent + first + left + right == sent + all
  {
  }

  /** What a range that is not split adds to the target and to the record of probes. */
  lemma LeafResult(accepts: bytes -> bool, rows: seq<bytes>, lo: int, hi: int, before: multiset<bytes>, sent: seq<Probe>)
    requires 0 <= lo <= hi + 1 <= |rows| && AllFramed(rows)
    ensures var good := Verdicts(accepts, rows);
            && (lo > hi ==>
                  && BadIndices(good, lo, hi) == [] && sent == sent + Probes(good, lo, hi)
                  && before == before + GoodIn(accepts, rows, lo, hi))
            && (lo <= hi && AllGood(good, lo, hi) ==>
                  && BadIndices(good, lo, hi) == [] && sent + [Probe(lo, hi, true)] == sent + Probes(good, lo, hi)
                  && before + multiset(rows[lo..hi + 1]) == before + GoodIn(accepts, rows, lo, hi))
            && (lo == hi && !AllGood(good, lo, hi) ==>
                  && BadIndices(good, lo, hi) == [lo] && sent + [Probe(lo, hi, false)] == sent + Probes(good, lo, hi)
                  && before + multiset{} == before + GoodIn(accepts, rows, lo, hi))
  {
    LeafFacts(accepts, rows, lo, hi);
    hide *;
    assert sent + [] == sent && before + multiset{} == before;
  }

  lemma HalvesTargets(accepts: bytes -> bool, rows: seq<bytes>, lo: int, hi: int, before: multiset<bytes>)
    requires 0 <= lo < hi < |rows|
    ensures var mid := (lo + hi) / 2;
            before + multiset{} + GoodIn(accepts, rows, lo, mid) + GoodIn(accepts, rows, mid + 1, hi)
            == before + GoodIn(accepts, rows, lo, hi)
  {
    hide *;
    var mid := (lo + hi) / 2;
    GoodInSplit(accepts, rows, lo, mid, hi);
    JoinTargets(before, GoodIn(accepts, rows, lo, mid), GoodIn(accepts, rows, mid + 1, hi), GoodIn(accepts, rows, lo, hi));
  }

  lemma HalvesProbes(accepts: bytes -> bool, rows: seq<bytes>, lo: int, hi: int, sent: seq<Probe>)
    requires 0 <= lo < hi < |rows| && !AllGood(Verdicts(accepts, rows), lo, hi)
    ensures var mid, good := (lo + hi) / 2, Verdicts(accepts, rows);
            sent + [Probe(lo, hi, false)] + Probes(good, lo, mid) + Probes(good, mid + 1, hi)
            == sent + Probes(good, lo, hi)
  {
    SplitFacts(accepts, rows, lo, hi);
    var mid, good := (lo + hi) / 2, Verdicts(accepts, rows);
    hide *;
    JoinProbes(sent, [Probe(lo, hi, false)], Probes(good, lo, mid), Probes(good, mid + 1, hi), Probes(good, lo, hi));
  }

  /** What the two halves of a failed range add. */
  lemma HalvesResult(accepts: bytes -> bool, rows: seq<bytes>, lo: int, hi: int, before: multiset<bytes>, sent: seq<Probe>)
    requires 0 <= lo < hi < |rows| && !AllGood(Verdicts(accepts, rows), lo, hi)
    ensures var mid, good := (lo + hi) / 2, Verdicts(accepts, rows);
            && lo <= mid < hi
            && BadIndices(good, lo, mid) + BadIndices(good, mid + 1, hi) == BadIndices(good, lo, hi)
            && sent + [Probe(lo, hi, false)] + Probes(good, lo, mid) + Probes(good, mid + 1, hi)
               == sent + Probes(good, lo, hi)
            && before + multiset{} + GoodIn(accepts, rows, lo, mid) + GoodIn(accepts, rows, mid + 1, hi)
               == before + GoodIn(accepts, rows, lo, hi)
  {
    hide *;
    SplitFacts(accepts, rows, lo, hi);
    HalvesTargets(accepts, rows, lo, hi, before);
    HalvesProbes(accepts, rows, lo, hi, sent);
  }

  // ----- The search and the retry as written -----

  /** A writer that also remembers which ranges the search tried. */
  class Retry<R> {
    const writer: CopyWriter
    ghost var probes: seq<Probe>

    constructor (writer: CopyWriter)
      ensures this.writer == writer && probes == []
    {
      this.writer := writer;
      probes := [];
    }

    /** A batch holding the rows lo..hi, both included. */
    method RangeOf(formatted: seq<bytes>, lo: int, hi: int) returns (batch: Batch)
      requires 0 <= lo <= hi < |formatted|
      ensures fresh(batch) && batch.Valid() && batch.data == formatted[lo..hi + 1]
    {
      batch := new Batch(hi - lo + 1, 0);
      for i := lo to hi + 1
        invariant batch.data == formatted[lo..i] && batch.byteCount == Size(batch.data)
        invariant fresh(batch)
      {
        SizeSnoc(batch.data, formatted[i]);
        batch.data := batch.data + [formatted[i]];
        batch.byteCount := batch.byteCount + |formatted[i]|;
      }
      batch.rowCount := hi - lo + 1;
    }

    method TestRange(formatted: seq<bytes>, lo: int, hi: int) returns (ok: bool)
      requires (lo <= hi ==> 0 <= lo && hi < |formatted|) && AllFramed(formatted)
      modifies this, writer
      ensures lo > hi ==> ok && writer.committed == old(writer.committed) && probes == old(probes)
      ensures lo <= hi ==> ok == AllGood(Verdicts(writer.accepts, formatted), lo, hi)
      ensures lo <= hi ==>
                writer.committed
                == old(writer.committed) + if ok then multiset(formatted[lo..hi + 1]) else multiset{}
      ensures lo <= hi ==> probes == old(probes) + [Probe(lo, hi, ok)]
    {
      if lo > hi {
        return true;
      }
      hide AllGood, Verdicts, GoodIn, AllAccepted, AllFramed, Lines.Records, Concat, Size;
      RangeFacts(writer.accepts, formatted, lo, hi);
      var batch := RangeOf(formatted, lo, hi);
      ok := writer.FlushBatch(batch);
      probes := probes + [Probe(lo, hi, ok)];
    }

    method FindBadRows(formatted: seq<bytes>, lo: int, hi: int) returns (bad: seq<int>)
      requires 0 <= lo <= hi + 1 <= |formatted| && AllFramed(formatted)
      modifies this, writer
      ensures bad == BadIndices(Verdicts(writer.accepts, formatted), lo, hi)
      ensures writer.committed == old(writer.committed) + GoodIn(writer.accepts, formatted, lo, hi)
      ensures probes == old(probes) + Probes(Verdicts(writer.accepts, formatted), lo, hi)
      decreases hi - lo + 1
    {
      hide *;
      LeafResult(writer.accepts, formatted, lo, hi, writer.committed, probes);
      if lo > hi {
        return [];
      }
      var ok := TestRange(formatted, lo, hi);
      if ok {
        return [];
      }
      if lo == hi {
        return [lo];
      }
      HalvesResult(writer.accepts, formatted, lo, hi, old(writer.committed), old(probes));
      var mid := (lo + hi) / 2;
      var leftBad := FindBadRows(formatted, lo, mid);
      var rightBad := FindBadRows(formatted, mid + 1, hi);
      return leftBad + rightBad;
    }

    /** A batch holding the given formatted rows, with its counters summed up. */
    method BatchOf(formatted: seq<bytes>) returns (batch: Batch)
      ensures fresh(batch) && batch.Valid() && batch.data == formatted
    {
      batch := new Batch(|formatted|, |formatted| * 200);
      batch.data := formatted;
      batch.rowCount := |formatted|;
      for i := 0 to |formatted|
        invariant batch.data == formatted && batch.rowCount == |formatted|
        invariant batch.byteCount == Size(formatted[..i])
      {
        assert formatted[..i + 1] == formatted[..i] + [formatted[i]];
        SizeSnoc(formatted[..i], formatted[i]);
        batch.byteCount := batch.byteCount + |formatted[i]|;
      }
      assert formatted[..|formatted|] == formatted;
    }

    /** Separates the rows the search found from the others. */
    method Separate(rows: seq<R>, formatted: seq<bytes>, badIndices: seq<int>)
      returns (rejected: seq<R>, goodRows: seq<R>, goodFormatted: seq<bytes>)
      requires |rows| == |formatted|
      requires badIndices == BadIndices(Verdicts(writer.accepts, formatted), 0, |formatted| - 1)
      ensures var good := Verdicts(writer.accepts, formatted);
              && rejected == Select(rows, good, false)
              && goodRows == Select(rows, good, true)
              && goodFormatted == Select(formatted, good, true)
    {
      ghost var good := Verdicts(writer.accepts, formatted);
      var badSet := set idx | idx in badIndices;
      BadIndicesExact(good, 0, |formatted| - 1);
      assert forall i | 0 <= i < |rows| :: i in badSet <==> !good[i];
      rejected, goodRows, goodFormatted := [], [], [];
      hide *;
      NothingTaken(Select(rows, good, false));
      NothingTaken(Select(rows, good, true));
      NothingTaken(Select(formatted, good, true));
      for i := 0 to |rows|
        invariant rejected + Select(rows[i..], good[i..], false) == Select(rows, good, false)
        invariant goodRows + Select(rows[i..], good[i..], true) == Select(rows, good, true)
        invariant goodFormatted + Select(formatted[i..], good[i..], true) == Select(formatted, good, true)
      {
        SelectTakes(rejected, rows, good, i, false);
        SelectTakes(goodRows, rows, good, i, true);
        SelectTakes(goodFormatted, formatted, good, i, true);
        if i in badSet {
          rejected := rejected + [rows[i]];
        } else {
          goodRows := goodRows + [rows[i]];
          goodFormatted := goodFormatted + [formatted[i]];
        }
      }
      SelectEnd(rows[|rows|..], good[|rows|..]);
      SelectEnd(formatted[|rows|..], good[|rows|..]);
      assert rejected + [] == rejected && goodRows + [] == goodRows && goodFormatted + [] == goodFormatted;
    }

    /**
     Never fails; counts every row once; rejects the bad rows in source order; and commits each good
     row once if the whole batch was accepted, else twice: by its probe and by the clean batch.
     */
    method RetryBatch(rows: seq<R>, formatted: seq<bytes>)
      returns (imported: int, rejected: seq<R>, ok: bool)
      requires |rows| == |formatted| && AllFramed(formatted)
      modifies this, writer
      ensures ok
      ensures imported + |rejected| == |rows|
      ensures rejected == Select(rows, Verdicts(writer.accepts, formatted), false)
      ensures var kept := multiset(Select(formatted, Verdicts(writer.accepts, formatted), true));
              writer.committed == old(writer.committed) + kept + if rejected == [] then multiset{} else kept
      ensures probes == old(probes)
                     + if rejected == [] then [] else Probes(Verdicts(writer.accepts, formatted), 0, |formatted| - 1)
    {
      hide *;
      ok := true;
      imported, rejected := 0, [];
      RetryFacts(writer.accepts, rows, formatted);
      var batch := BatchOf(formatted);
      var flushed := writer.FlushBatch(batch);
      if flushed {
        imported := |rows|;
        return;
      }
      var badIndices := FindBadRows(formatted, 0, |formatted| - 1);
      var goodRows, goodFormatted;
      rejected, goodRows, goodFormatted := Separate(rows, formatted, badIndices);
      if |goodFormatted| > 0 {
        var cleanBatch := BatchOf(goodFormatted);
        ok := writer.FlushBatch(cleanBatch);
        if !ok {
          return;
        }
        imported := |goodRows|;
      }
    }
  }
}
