/** Small facts about integer multiplication, division and powers of two that
    the index arithmetic of the pipeline needs. */
module Arith {

  /** The smaller of two integers (`minOf`). */
  function Min(a: int, b: int): int
  {
    if a <= b then a else b
  }

  function Pow2(b: nat): (p: nat)
    ensures p >= 1
  {
    if b == 0 then 1 else 2 * Pow2(b - 1)
  }

  lemma {:induction false} MulAtLeast(x: int, b: int)
    requires x >= 1 && b >= 0
    ensures x * b >= b
  {
    if x > 1 {
      MulAtLeast(x - 1, b);
      assert x * b == (x - 1) * b + b;
    }
  }

  lemma MulSucc(a: int, b: int)
    ensures (a + 1) * b == a * b + b
  {
  }

  lemma MulMonoLe(a: int, c: int, b: int)
    requires a <= c && b >= 0
    ensures a * b <= c * b
  {
    if a < c {
      MulAtLeast(c - a, b);
      assert c * b - a * b == (c - a) * b;
    }
  }

  /** Division and remainder are determined by any decomposition a = q*b + r with 0 <= r < b. */
  lemma DivModUnique(a: int, b: int, q: int, r: int)
    requires b > 0 && 0 <= r < b && a == q * b + r
    ensures a / b == q && a % b == r
  {
    var q', r' := a / b, a % b;
    assert a == q' * b + r';
    assert (q - q') * b == r' - r;
    if q > q' {
      MulAtLeast(q - q', b);
    } else if q < q' {
      MulAtLeast(q' - q, b);
    }
  }

  /** Inside the block of `len` elements that starts at a multiple of `len`, the
      remainder is the offset into the block. */
  lemma ModInBlock(p: int, i: int, len: int)
    requires len > 0 && i >= 0 && i % len == 0 && i <= p < i + len
    ensures p % len == p - i && p / len == i / len
  {
    var c := i / len;
    assert i == c * len;
    DivModUnique(p, len, c, p - i);
  }

  /** A non-negative number below `n * d` has a quotient by `d` below `n`. */
  lemma QuotientBelow(q: int, n: int, d: int)
    requires d > 0 && 0 <= q < n * d
    ensures 0 <= q / d < n
  {
    var k := q / d;
    assert q == k * d + q % d;
    if k >= n {
      MulMonoLe(n, k, d);
    }
  }
}
