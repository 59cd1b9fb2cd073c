/** Byte strings and the small results about them that the COPY modules share. */
module Bytes {
  type byte = b: int | 0 <= b < 256
  type bytes = seq<byte>

  const TAB: byte := 9
  const NL: byte := 10
  const CR: byte := 13
  const BACKSLASH: byte := 92
  const DOT: byte := 46

  /** The bytes sent when rows are written one after the other. */
  function Concat(rows: seq<bytes>): bytes {
    if rows == [] then [] else rows[0] + Concat(rows[1..])
  }

  lemma {:induction false} ConcatAppend(a: seq<bytes>, b: seq<bytes>)
    ensures Concat(a + b) == Concat(a) + Concat(b)
  {
    if a == [] {
      assert a + b == b;
    } else {
      assert (a + b)[1..] == a[1..] + b;
      ConcatAppend(a[1..], b);
    }
  }

  lemma ConcatSnoc(a: seq<bytes>, r: bytes)
    ensures Concat(a + [r]) == Concat(a) + r
  {
    ConcatAppend(a, [r]);
    assert Concat([r]) == r + Concat([]);
  }

  /** Total length of a list of byte strings. */
  function Size(rows: seq<bytes>): nat {
    if rows == [] then 0 else |rows[0]| + Size(rows[1..])
  }

  lemma {:induction false} SizeAppend(a: seq<bytes>, b: seq<bytes>)
    ensures Size(a + b) == Size(a) + Size(b)
  {
    if a == [] {
      assert a + b == b;
    } else {
      assert (a + b)[1..] == a[1..] + b;
      SizeAppend(a[1..], b);
    }
  }

  lemma SizeSnoc(a: seq<bytes>, r: bytes)
    ensures Size(a + [r]) == Size(a) + |r|
  {
    SizeAppend(a, [r]);
    assert Size([r]) == |r| + Size([]);
  }
}
