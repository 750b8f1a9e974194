/** Arithmetic facts the puzzles share. */
module Numbers {
  /** The product of two natural numbers. */
  function Product(a: nat, b: nat): nat
  {
    a * b
  }

  lemma PositiveProduct(a: nat, b: nat)
    requires a >= 1 && b >= 1
    ensures a * b >= 1
  {
  }

  /** A remainder is the only one: a == q * m + r with r below m fixes r. */
  lemma ModUnique(a: int, m: int, q: int, r: int)
    requires m >= 1 && 0 <= r < m && a == q * m + r
    ensures a % m == r
  {
    var q0, r0 := a / m, a % m;
    assert a == q0 * m + r0;
    assert (q - q0) * m == r0 - r;
    if q > q0 {
      AtLeastOnce(q - q0, m);
    } else if q < q0 {
      AtLeastOnce(q0 - q, m);
    }
  }

  /** A quotient is the only one: a == q * m + r with r below m fixes q. */
  lemma DivUnique(a: int, m: int, q: int, r: int)
    requires m >= 1 && 0 <= r < m && a == q * m + r
    ensures a / m == q
  {
    ModUnique(a, m, q, r);
    var q0 := a / m;
    assert (q0 - q) * m == 0;
    if q0 > q {
      AtLeastOnce(q0 - q, m);
    } else if q0 < q {
      AtLeastOnce(q - q0, m);
    }
  }

  /** The sum of the numbers of s. */
  function Sum(s: seq<nat>): nat
  {
    if s == [] then 0 else Sum(s[..|s| - 1]) + s[|s| - 1]
  }

  /** Sums add up over a concatenation. */
  lemma {:induction false} SumAppend(s: seq<nat>, t: seq<nat>)
    ensures Sum(s + t) == Sum(s) + Sum(t)
    decreases |t|
  {
    if t == [] {
      assert s + t == s;
    } else {
      SumAppend(s, t[..|t| - 1]);
      assert (s + t)[..|s + t| - 1] == s + t[..|t| - 1];
    }
  }

  /** Multiplying by the same natural number keeps the order. */
  lemma MulMonotone(a: int, b: int, c: nat)
    requires a <= b
    ensures a * c <= b * c
  {
  }

  lemma AtLeastOnce(x: int, m: int)
    requires x >= 1 && m >= 1
    ensures x * m >= m
  {
  }

  /** One more row of w cells: (n + 1) * w == w + n * w. */
  lemma MulSucc(n: nat, w: nat)
    ensures (n + 1) * w == w + n * w
  {
  }
}
