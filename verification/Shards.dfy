/**
 Splitting a table into primary-key ranges.  The three database sources share this arithmetic
 (ConcurrencySupport in internal/source/pgsql, mysql and mssql).
 */
module Shards {
  import opened Decimal

  // ----- int64 arithmetic -----

  const TWO63: int := 0x8000_0000_0000_0000
  const MAX_INT64: int := TWO63 - 1

  predicate IsInt64(x: int) { -TWO63 <= x < TWO63 }

  function Wrap(x: int): (y: int)
    ensures IsInt64(y)
    ensures IsInt64(x) ==> y == x
  {
    (x + TWO63) % (2 * TWO63) - TWO63
  }

  /** Integer division that truncates toward zero. */
  function Quot(a: int, b: int): int
    requires b > 0
  {
    if a >= 0 then a / b else -((-a) / b)
  }

  /** The arithmetic is that of 64 bits in two's complement. */
  lemma WrapIsInt64(x: int)
    ensures -9223372036854775808 <= Wrap(x) <= 9223372036854775807
    ensures (Wrap(x) - x) % 0x1_0000_0000_0000_0000 == 0
  {
  }

  /** Division leaves a remainder smaller than the divisor and with the sign of the dividend. */
  lemma QuotTruncates(a: int, b: int)
    requires b > 0
    ensures var rem := a - Quot(a, b) * b; -b < rem < b && (a >= 0 ==> rem >= 0) && (a <= 0 ==> rem <= 0)
  {
  }

  // ----- Ranges -----

  /** Keys from lo up to but not including hi, as in the WHERE clause of a shard. */
  datatype Range = Range(lo: int, hi: int) {
    predicate Contains(k: int) { lo <= k < hi }
  }

  function RangeSize(min: int, max: int, concurrency: int): (size: int)
    requires concurrency > 1
    ensures size >= 1
  {
    var size := Quot(Wrap(max - min), concurrency);
    if size < 1 then 1 else size
  }

  function Shard(min: int, max: int, concurrency: int, i: int): Range
    requires 0 <= i < concurrency && concurrency > 1
  {
    var size := RangeSize(min, max, concurrency);
    var lo := Wrap(min + Wrap(i * size));
    var hi := if i == concurrency - 1 then Wrap(max + 1) else Wrap(lo + size);
    Range(lo, hi)
  }

  /** Bounds of the key column; None for an empty table. */
  datatype KeyRange = KeyRange(min: int, max: int)

  /** An empty result means that the table is copied by a single pipeline. */
  method ConcurrencySupport(hasKey: bool, bounds: Option<KeyRange>, concurrency: int) returns (shards: seq<Range>)
    ensures concurrency <= 1 || !hasKey || bounds.None? ==> shards == []
    ensures concurrency > 1 && hasKey && bounds.Some? ==>
              && |shards| == concurrency
              && forall i | 0 <= i < concurrency ::
                   shards[i] == Shard(bounds.value.min, bounds.value.max, concurrency, i)
  {
    if concurrency <= 1 {
      return [];
    }
    if !hasKey {
      return [];
    }
    if bounds.None? {
      return [];
    }
    var min, max := bounds.value.min, bounds.value.max;
    var rangeSize := Quot(Wrap(max - min), concurrency);
    if rangeSize < 1 {
      rangeSize := 1;
    }
    shards := [];
    for i := 0 to concurrency
      invariant |shards| == i
      invariant forall j | 0 <= j < i :: shards[j] == Shard(min, max, concurrency, j)
    {
      var lo := Wrap(min + Wrap(i * rangeSize));
      var hi := Wrap(lo + rangeSize);
      if i == concurrency - 1 {
        hi := Wrap(max + 1);
      }
      shards := shards + [Range(lo, hi)];
    }
  }

  // ----- How often a key is read -----

  /** Number of shards below n that read key k. */
  function Hits(min: int, max: int, concurrency: int, n: nat, k: int): nat
    requires n <= concurrency && concurrency > 1
  {
    if n == 0 then 0
    else Hits(min, max, concurrency, n - 1, k)
         + if Shard(min, max, concurrency, n - 1).Contains(k) then 1 else 0
  }

  /** Every key that may occur is read by exactly one shard. */
  ghost predicate ExactCover(min: int, max: int, concurrency: int)
    requires concurrency > 1
  {
    forall k | min <= k <= max :: Hits(min, max, concurrency, concurrency, k) == 1
  }

  /** A test on the arguments that rules out every harmful wrap-around. */
  predicate Safe(min: int, max: int, concurrency: int) {
    max < MAX_INT64 && min + (concurrency - 1) <= MAX_INT64
  }

  predicate Arguments(min: int, max: int, concurrency: int) {
    IsInt64(min) && IsInt64(max) && min <= max && 1 < concurrency <= MAX_INT64
  }

  lemma MulMonotone(a: int, b: int, c: int)
    requires 0 <= a <= b && c >= 0
    ensures 0 <= a * c <= b * c
  {
  }

  /** Either the difference overflows or is small and the size is one, or the shards fit the span. */
  lemma SizeFits(min: int, max: int, concurrency: int)
    requires Arguments(min, max, concurrency)
    ensures var size := RangeSize(min, max, concurrency);
            size == 1 || concurrency * size <= max - min
    ensures max - min < concurrency ==> RangeSize(min, max, concurrency) == 1
  {
    var d := max - min;
    if d < TWO63 {
      DivBounds(d, concurrency);
    } else {
      assert Wrap(d) == d - 2 * TWO63;
      QuotNegative(Wrap(d), concurrency);
    }
  }

  lemma DivBounds(d: int, c: int)
    requires d >= 0 && c > 1
    ensures c * (d / c) <= d
    ensures d < c ==> d / c == 0
  {
  }

  lemma QuotNegative(d: int, c: int)
    requires d < 0 && c > 1
    ensures Quot(d, c) <= 0
  {
    DivBounds(-d, c);
    assert (-d) / c >= 0;
  }

  /** Under the test no lower bound wraps, and neither does any upper bound but perhaps the unused one. */
  lemma ShardUnwrapped(min: int, max: int, concurrency: int, i: int)
    requires Arguments(min, max, concurrency) && Safe(min, max, concurrency)
    requires 0 <= i < concurrency
    ensures var size := RangeSize(min, max, concurrency);
            Shard(min, max, concurrency, i)
            == Range(min + i * size, if i == concurrency - 1 then max + 1 else min + (i + 1) * size)
  {
    var size := RangeSize(min, max, concurrency);
    OffsetFits(min, max, concurrency, i);
    if i < concurrency - 1 {
      OffsetFits(min, max, concurrency, i + 1);
      assert (i + 1) * size == i * size + size;
    }
    hide RangeSize, Wrap;
    var offset := i * size;
    assert Wrap(offset) == offset && Wrap(min + offset) == min + offset;
  }

  lemma OffsetFits(min: int, max: int, concurrency: int, i: int)
    requires Arguments(min, max, concurrency) && Safe(min, max, concurrency)
    requires 0 <= i < concurrency
    ensures IsInt64(i * RangeSize(min, max, concurrency))
    ensures IsInt64(min + i * RangeSize(min, max, concurrency))
  {
    var size := RangeSize(min, max, concurrency);
    SizeFits(min, max, concurrency);
    MulMonotone(i, concurrency - 1, size);
    assert (concurrency - 1) * size == concurrency * size - size;
  }

  lemma HitsNext(min: int, max: int, concurrency: int, n: nat, k: int)
    requires 0 < n <= concurrency && concurrency > 1
    ensures Hits(min, max, concurrency, n, k)
         == Hits(min, max, concurrency, n - 1, k) + if Shard(min, max, concurrency, n - 1).Contains(k) then 1 else 0
    ensures Hits(min, max, concurrency, 0, k) == 0
  {
    hide Shard;
  }

  lemma MulStep(n: nat, size: int)
    requires n > 0 && size >= 1
    ensures n * size == (n - 1) * size + size && (n - 1) * size >= 0
  {
    MulMonotone(0, n - 1, size);
  }

  lemma RangeContains(lo: int, hi: int, k: int)
    ensures Range(lo, hi).Contains(k) <==> lo <= k < hi
  {
  }

  lemma {:induction false} HitsBelow(min: int, max: int, concurrency: int, n: nat, k: int)
    requires Arguments(min, max, concurrency) && Safe(min, max, concurrency)
    requires n < concurrency
    ensures Hits(min, max, concurrency, n, k)
         == if min <= k < min + n * RangeSize(min, max, concurrency) then 1 else 0
  {
    if n > 0 {
      hide *;
      HitsBelow(min, max, concurrency, n - 1, k);
      HitsNext(min, max, concurrency, n, k);
      NextHit(min, max, concurrency, n, k);
    }
  }

  /** The shard before the n-th reads the keys after those of the earlier ones. */
  lemma NextHit(min: int, max: int, concurrency: int, n: nat, k: int)
    requires Arguments(min, max, concurrency) && Safe(min, max, concurrency)
    requires 0 < n < concurrency
    ensures var size := RangeSize(min, max, concurrency);
            && min + (n - 1) * size <= min + n * size
            && (n == 1 ==> (n - 1) * size == 0) && min <= min + (n - 1) * size
            && (Shard(min, max, concurrency, n - 1).Contains(k) <==> min + (n - 1) * size <= k < min + n * size)
  {
    hide *;
    ShardUnwrapped(min, max, concurrency, n - 1);
    SizePositive(min, max, concurrency);
    MulStep(n, RangeSize(min, max, concurrency));
    RangeContains(min + (n - 1) * RangeSize(min, max, concurrency), min + n * RangeSize(min, max, concurrency), k);
  }

  lemma SizePositive(min: int, max: int, concurrency: int)
    requires Arguments(min, max, concurrency)
    ensures concurrency > 1 && RangeSize(min, max, concurrency) >= 1
  {
  }

  lemma LastLowerBound(min: int, max: int, concurrency: int)
    requires Arguments(min, max, concurrency)
    ensures min + (concurrency - 1) * RangeSize(min, max, concurrency) <= max + 1
         || RangeSize(min, max, concurrency) == 1
  {
    var size := RangeSize(min, max, concurrency);
    SizeFits(min, max, concurrency);
    assert (concurrency - 1) * size == concurrency * size - size;
  }

  /** Under the test the shards are pairwise disjoint on all keys and read [min, max] completely. */
  lemma SafeCovers(min: int, max: int, concurrency: int, k: int)
    requires Arguments(min, max, concurrency) && Safe(min, max, concurrency)
    ensures Hits(min, max, concurrency, concurrency, k) <= 1
    ensures min <= k <= max ==> Hits(min, max, concurrency, concurrency, k) == 1
  {
    HitsBelow(min, max, concurrency, concurrency - 1, k);
    ShardUnwrapped(min, max, concurrency, concurrency - 1);
    MulMonotone(0, concurrency - 1, RangeSize(min, max, concurrency));
    LastLowerBound(min, max, concurrency);
  }

  /** Wrapping max + 1 empties the last shard, and no shard can read the greatest int64. */
  lemma {:induction false} TopKeyLost(min: int, max: int, concurrency: int, n: nat)
    requires Arguments(min, max, concurrency) && max == MAX_INT64
    requires n <= concurrency
    ensures Hits(min, max, concurrency, n, max) == 0
  {
    if n > 0 {
      TopKeyLost(min, max, concurrency, n - 1);
    }
  }

  /** A last lower bound that wraps makes the last shard read keys the first shard reads as well. */
  lemma WrappedLastShardOverlaps(min: int, max: int, concurrency: int)
    requires Arguments(min, max, concurrency) && max < MAX_INT64
    requires min + (concurrency - 1) > MAX_INT64
    ensures Shard(min, max, concurrency, 0).Contains(min)
    ensures Shard(min, max, concurrency, concurrency - 1).Contains(min)
  {
    SizeFits(min, max, concurrency);
    assert RangeSize(min, max, concurrency) == 1;
    var x := min + (concurrency - 1);
    assert Wrap(concurrency - 1) == concurrency - 1;
    assert Wrap(x) == x - 2 * TWO63;
  }

  lemma {:induction false} HitsMonotone(min: int, max: int, concurrency: int, m: nat, n: nat, k: int)
    requires m <= n <= concurrency && concurrency > 1
    ensures Hits(min, max, concurrency, m, k) <= Hits(min, max, concurrency, n, k)
    decreases n - m
  {
    if m < n {
      HitsMonotone(min, max, concurrency, m, n - 1, k);
    }
  }

  /**
   Sharding reads each key of the table exactly once if and only if the two int64 tests hold; this
   includes spans smaller than the number of shards and spans whose width itself overflows.
   */
  lemma ExactCoverIffSafe(min: int, max: int, concurrency: int)
    requires Arguments(min, max, concurrency)
    ensures ExactCover(min, max, concurrency) <==> Safe(min, max, concurrency)
  {
    if Safe(min, max, concurrency) {
      forall k | min <= k <= max
        ensures Hits(min, max, concurrency, concurrency, k) == 1
      {
        SafeCovers(min, max, concurrency, k);
      }
    } else if max == MAX_INT64 {
      TopKeyLost(min, max, concurrency, concurrency);
      assert Hits(min, max, concurrency, concurrency, max) != 1;
    } else {
      WrappedLastShardOverlaps(min, max, concurrency);
      HitsMonotone(min, max, concurrency, 1, concurrency - 1, min);
      assert Hits(min, max, concurrency, 1, min) == 1;
      assert Hits(min, max, concurrency, concurrency, min) != 1;
    }
  }

  /** No step of the computation overflows when the span fits and there is room above the maximum. */
  lemma NoStepOverflows(min: int, max: int, concurrency: int, i: int)
    requires Arguments(min, max, concurrency) && 0 <= i < concurrency
    requires max - min <= MAX_INT64 && max + concurrency <= MAX_INT64
    ensures var size := RangeSize(min, max, concurrency);
            && IsInt64(max - min) && IsInt64(i * size) && IsInt64(min + i * size)
            && IsInt64(min + i * size + size) && IsInt64(max + 1)
  {
    var size := RangeSize(min, max, concurrency);
    SizeFits(min, max, concurrency);
    MulMonotone(i, concurrency - 1, size);
    assert (concurrency - 1) * size == concurrency * size - size;
  }

  /**
   The shards are even: each but the last has a share of the span as its size, rounded down, or one key when the
   span is small or its width overflows; the last goes up to the maximum and is longer by less than their number.
   */
  lemma EvenShards(min: int, max: int, concurrency: int, i: int)
    requires Arguments(min, max, concurrency) && Safe(min, max, concurrency) && 0 <= i < concurrency
    ensures var span := max - min;
            var share := if concurrency <= span < 0x8000_0000_0000_0000 then span / concurrency else 1;
            && Shard(min, max, concurrency, i)
               == Range(min + i * share, if i == concurrency - 1 then max + 1 else min + i * share + share)
            && (concurrency <= span < 0x8000_0000_0000_0000 ==>
                  share <= max + 1 - (min + (concurrency - 1) * share) <= share + concurrency)
  {
    var span, size := max - min, RangeSize(min, max, concurrency);
    SizeIs(min, max, concurrency);
    ShardUnwrapped(min, max, concurrency, i);
    MulStep(i + 1, size);
    hide RangeSize, Shard, Wrap;
    if concurrency <= span {
      LastShare(min, max, concurrency);
    }
  }

  lemma LastShare(min: int, max: int, concurrency: int)
    requires 1 < concurrency <= max - min
    ensures var share := (max - min) / concurrency;
            share <= max + 1 - (min + (concurrency - 1) * share) <= share + concurrency
  {
    var span := max - min;
    var share := span / concurrency;
    assert span == concurrency * share + span % concurrency;
    assert (concurrency - 1) * share == concurrency * share - share;
  }

  lemma SizeIs(min: int, max: int, concurrency: int)
    requires Arguments(min, max, concurrency)
    ensures var span := max - min;
            RangeSize(min, max, concurrency)
            == if concurrency <= span < 0x8000_0000_0000_0000 then span / concurrency else 1
  {
    var d := max - min;
    if d < TWO63 {
      DivBounds(d, concurrency);
      if d >= concurrency {
        assert d == concurrency * (d / concurrency) + d % concurrency;
        assert d / concurrency >= 1;
      }
    } else {
      assert Wrap(d) == d - 2 * TWO63;
      QuotNegative(Wrap(d), concurrency);
    }
  }

  // ----- Rows -----

  datatype Keyed<T> = Keyed(key: int, row: T)

  /** The rows a shard selects, in table order. */
  function Select<T>(table: seq<Keyed<T>>, range: Range): seq<T> {
    if table == [] then []
    else if range.Contains(table[0].key) then [table[0].row] + Select(table[1..], range)
    else Select(table[1..], range)
  }

  function AllRows<T>(table: seq<Keyed<T>>): seq<T> {
    if table == [] then [] else [table[0].row] + AllRows(table[1..])
  }

  function Image<T, U>(f: T -> U, rows: seq<T>): seq<U> {
    if rows == [] then [] else [f(rows[0])] + Image(f, rows[1..])
  }

  /** What the shards below n read, after formatting each row. */
  ghost function ReadBy<T, U>(f: T -> U, table: seq<Keyed<T>>, min: int, max: int, concurrency: int, n: nat)
    : multiset<U>
    requires n <= concurrency && concurrency > 1
  {
    if n == 0 then multiset{}
    else ReadBy(f, table, min, max, concurrency, n - 1)
         + multiset(Image(f, Select(table, Shard(min, max, concurrency, n - 1))))
  }

  /** The first row of the table is read as often as its key is hit. */
  lemma {:induction false} ReadByCons<T, U>(f: T -> U, table: seq<Keyed<T>>, min: int, max: int, concurrency: int,
                                            n: nat)
    requires n <= concurrency && concurrency > 1 && table != []
    ensures ReadBy(f, table, min, max, concurrency, n)
         == ReadBy(f, table[1..], min, max, concurrency, n)
            + multiset{}[f(table[0].row) := Hits(min, max, concurrency, n, table[0].key)]
  {
    hide Shard, Select, Range.Contains, Image;
    if n > 0 {
      var range, k := Shard(min, max, concurrency, n - 1), table[0].key;
      ReadByCons(f, table, min, max, concurrency, n - 1);
      SelectCons(f, table, range);
      OneMore(ReadBy(f, table[1..], min, max, concurrency, n - 1),
              multiset(Image(f, Select(table[1..], range))), f(table[0].row),
              Hits(min, max, concurrency, n - 1, k), range.Contains(k));
    }
  }

  lemma OneMore<U>(a: multiset<U>, b: multiset<U>, x: U, h: nat, hit: bool)
    ensures a + multiset{}[x := h] + (b + if hit then multiset{x} else multiset{})
         == a + b + multiset{}[x := h + if hit then 1 else 0]
  {
  }

  lemma SelectCons<T, U>(f: T -> U, table: seq<Keyed<T>>, range: Range)
    requires table != []
    ensures multiset(Image(f, Select(table, range)))
         == multiset(Image(f, Select(table[1..], range)))
            + if range.Contains(table[0].key) then multiset{f(table[0].row)} else multiset{}
  {
    if range.Contains(table[0].key) {
      assert Select(table, range)[1..] == Select(table[1..], range);
    }
  }

  lemma {:induction false} ReadByNothing<T, U>(f: T -> U, min: int, max: int, concurrency: int, n: nat)
    requires n <= concurrency && concurrency > 1
    ensures ReadBy(f, [], min, max, concurrency, n) == multiset{}
  {
    if n > 0 {
      ReadByNothing(f, min, max, concurrency, n - 1);
    }
  }

  /** Together the shards read the table: every row as often as it is there. */
  lemma {:induction false} ShardsReadTable<T, U>(f: T -> U, table: seq<Keyed<T>>, min: int, max: int,
                                                 concurrency: int)
    requires Arguments(min, max, concurrency) && Safe(min, max, concurrency)
    requires forall i | 0 <= i < |table| :: min <= table[i].key <= max
    ensures ReadBy(f, table, min, max, concurrency, concurrency) == multiset(Image(f, AllRows(table)))
  {
    if table == [] {
      ReadByNothing(f, min, max, concurrency, concurrency);
    } else {
      ReadByCons(f, table, min, max, concurrency, concurrency);
      SafeCovers(min, max, concurrency, table[0].key);
      ShardsReadTable(f, table[1..], min, max, concurrency);
      assert AllRows(table)[1..] == AllRows(table[1..]);
    }
  }
}
