/** Vocabulary shared by every component: options, the range of a Rust `i64`, and sums over tables. */
module Common {

  datatype Option<+T> = None | Some(value: T) {
    function GetOr(default: T): T {
      match this
      case Some(v) => v
      case None => default
    }
  }

  const I64_MAX: int := 0x7FFF_FFFF_FFFF_FFFF
  const I64_MIN: int := -0x8000_0000_0000_0000
  const TWO_64: int := 0x1_0000_0000_0000_0000

  predicate IsI64(x: int) {
    I64_MIN <= x <= I64_MAX
  }

  /** What an `i64` addition or subtraction leaves when `x` is the exact result: `x` modulo 2^64. */
  function WrapI64(x: int): (r: int)
    ensures IsI64(r)
    ensures IsI64(x) ==> r == x
    decreases if x > I64_MAX then x - I64_MAX else if x < I64_MIN then I64_MIN - x else 0
  {
    if x > I64_MAX then WrapI64(x - TWO_64) else if x < I64_MIN then WrapI64(x + TWO_64) else x
  }

  lemma {:induction false} WrapSum(x: int, y: int)
    ensures WrapI64(WrapI64(x) + y) == WrapI64(x + y)
    decreases if x > I64_MAX then x - I64_MAX else if x < I64_MIN then I64_MIN - x else 0
  {
    if x > I64_MAX {
      WrapSum(x - TWO_64, y);
      WrapTurn(x - TWO_64 + y);
    } else if x < I64_MIN {
      WrapSum(x + TWO_64, y);
      WrapTurn(x + y);
    }
  }

  lemma WrapTurn(x: int)
    ensures WrapI64(x + TWO_64) == WrapI64(x)
  {
  }

  /** Wrapping moves a number by a multiple of 2^64, an even one. */
  lemma {:induction false} WrapKeepsParity(x: int)
    ensures WrapI64(x) % 2 == x % 2
    decreases if x > I64_MAX then x - I64_MAX else if x < I64_MIN then I64_MIN - x else 0
  {
    if x > I64_MAX {
      WrapKeepsParity(x - TWO_64);
    } else if x < I64_MIN {
      WrapKeepsParity(x + TWO_64);
    }
  }

  /** Rust's `/`, which truncates towards zero. */
  function Quotient(x: int, y: int): int
    requires y != 0
  {
    if (x >= 0) == (y > 0) then (if x >= 0 then x else -x) / (if y > 0 then y else -y)
    else -((if x >= 0 then x else -x) / (if y > 0 then y else -y))
  }

  function Max(x: int, y: int): int {
    if x < y then y else x
  }

  function Min(x: int, y: int): int {
    if x < y then x else y
  }

  /** The sum of an integer column over all rows of a table. */
  ghost function SumOver<K>(m: map<K, int>): int
    decreases |m|
  {
    if m == map[] then 0
    else
      var k :| k in m;
      assert |m - {k}| < |m| by { assert (m - {k}).Keys == m.Keys - {k}; }
      m[k] + SumOver(m - {k})
  }

  /** The sum does not depend on the order in which the rows are visited. */
  lemma {:induction false} SumOverSplit<K>(m: map<K, int>, k: K)
    requires k in m
    ensures SumOver(m) == m[k] + SumOver(m - {k})
    decreases |m|
  {
    var first :| first in m && SumOver(m) == m[first] + SumOver(m - {first});
    if first != k {
      assert (m - {first}).Keys == m.Keys - {first};
      assert (m - {k}).Keys == m.Keys - {k};
      SumOverSplit(m - {first}, k);
      SumOverSplit(m - {k}, first);
      assert m - {first} - {k} == m - {k} - {first};
    }
  }

  /** Writing one row changes the sum by the difference it makes to that row. */
  lemma SumOverUpdate<K>(m: map<K, int>, k: K, v: int)
    ensures SumOver(m[k := v]) == SumOver(m) + v - (if k in m then m[k] else 0)
  {
    SumOverSplit(m[k := v], k);
    if k in m {
      SumOverSplit(m, k);
      assert m[k := v] - {k} == m - {k};
    } else {
      assert m[k := v] - {k} == m;
    }
  }

  /** A table whose rows are all non-negative sums to at least any one of them. */
  lemma {:induction false} SumOverBounds<K>(m: map<K, int>)
    requires forall k :: k in m ==> 0 <= m[k]
    ensures 0 <= SumOver(m)
    ensures forall k :: k in m ==> m[k] <= SumOver(m)
    decreases |m|
  {
    forall k | k in m
      ensures 0 <= SumOver(m) && m[k] <= SumOver(m)
    {
      SumOverSplit(m, k);
      assert (m - {k}).Keys == m.Keys - {k};
      SumOverBounds(m - {k});
    }
    if m != map[] {
      var k :| k in m;
      assert m[k] <= SumOver(m);
    }
  }
}
