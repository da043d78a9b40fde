/** Products, quotients and positional notation: what the other modules need of non-linear arithmetic. */
module Arith {

  lemma {:induction false} MulLe(p: nat, a: nat, b: nat)
    requires a <= b
    ensures 0 <= p * a <= p * b
    decreases b
  {
    if a < b {
      assert p * b == p * (b - 1) + p;
      MulLe(p, a, b - 1);
    } else if a > 0 {
      assert p * a == p * (a - 1) + p;
      MulLe(p, a - 1, a - 1);
    }
  }

  /** A digit below its base: i of s blocks of n, r within the block. */
  lemma DigitBelow(n: nat, i: nat, r: nat, s: nat)
    requires i < s && r < n
    ensures 0 <= n * i && n * i + r < n * s && n * i + n <= n * s
  {
    assert n * (i + 1) == n * i + n;
    MulLe(n, i + 1, s);
    MulLe(n, 0, i);
  }

  lemma DigitAbove(n: nat, i: nat, r: nat, s: nat)
    requires n * i + r < n * s
    ensures i < s
  {
    if i >= s {
      MulLe(n, s, i);
      assert false;
    }
  }

  lemma DigitsUnique(n: nat, a: nat, b: nat, x: nat, y: nat)
    requires x < n && y < n && n * a + x == n * b + y
    ensures a == b && x == y
  {
    if a < b {
      DigitBelow(n, a, x, b);
      assert false;
    } else if b < a {
      DigitBelow(n, b, y, a);
      assert false;
    }
  }

  lemma Digits(n: nat, i: nat, j: nat)
    requires j < n
    ensures n * i >= 0 && (n * i + j) / n == i && (n * i + j) % n == j
  {
    MulLe(n, 0, i);
    var x := n * i + j;
    assert x == n * (x / n) + x % n;
    DigitsUnique(n, i, x / n, j, x % n);
  }

  lemma ScaleInjective(t: nat, a: nat, b: nat)
    requires t > 0
    ensures t * a == t * b <==> a == b
  {
    if t * a == t * b {
      DigitsUnique(t, a, b, 0, 0);
    }
  }

  lemma DivMod(n: nat, x: nat)
    requires n > 0
    ensures x == n * (x / n) + x % n && 0 <= x % n < n && 0 <= x / n
  {
  }

  lemma Same(p: nat, a: nat, b: nat)
    requires a == b
    ensures p * a == p * b
  {
  }

  lemma MulGe(b: nat, q: nat)
    requires b >= 1
    ensures b * q >= q
  {
    assert b * q == q * b;
    MulLe(q, 1, b);
  }

  lemma Distribute(a: nat, x: nat, y: nat)
    ensures a * x + a * y == a * (x + y)
  {
  }

  lemma RemainderIs(n: nat, m: nat, q: nat, r: nat)
    requires n >= 1 && m == n * q + r && r < n
    ensures m / n == q && m % n == r
  {
    Digits(n, q, r);
  }

  lemma QuotientIs(d: nat, x: nat, id: nat)
    requires d >= 1
    ensures id / d == x <==> x * d <= id < x * d + d
  {
    DivMod(d, id);
    assert d * x == x * d && d * (id / d) == id / d * d;
    if x * d <= id < x * d + d {
      RemainderIs(d, id, x, id - x * d);
    }
  }

  lemma QuotientBelow(d: nat, id: nat, n: nat)
    requires d >= 1
    ensures id / d < n <==> id < d * n
  {
    DivMod(d, id);
    if id / d < n {
      DigitBelow(d, id / d, id % d, n);
    } else {
      MulLe(d, n, id / d);
    }
  }

  lemma DivMono(n: nat, m: nat, d: nat)
    requires n <= m && d >= 1
    ensures n / d <= m / d
  {
    DivMod(d, n);
    DivMod(d, m);
    if n / d > m / d {
      DigitBelow(d, m / d, m % d, n / d);
    }
  }

  lemma DivExact(n: nat, d: nat)
    requires d >= 1
    ensures (n * d) / d == n
  {
    assert n * d == d * n;
    RemainderIs(d, n * d, n, 0);
  }

  lemma ModShift(n: nat, a: nat, r: nat, q: nat)
    requires n >= 1 && r < n && q < n && (r + a) % n == (q + a) % n
    ensures r == q
  {
    DivMod(n, r + a);
    DivMod(n, q + a);
    if r < q {
      ModApart(n, (r + a) / n, (q + a) / n, q - r);
    } else if q < r {
      ModApart(n, (q + a) / n, (r + a) / n, r - q);
    }
  }

  /** Two multiples of n are not less than n apart. */
  lemma ModApart(n: nat, x: nat, y: nat, d: nat)
    requires 0 < d < n
    ensures n * y - n * x != d
  {
    if n * y == n * x + d {
      DigitsUnique(n, y, x, 0, d);
    }
  }

  lemma ModAdd(a: nat, c: nat, n: nat)
    requires n >= 1
    ensures (a % n + c) % n == (a + c) % n
  {
    DivMod(n, a);
    DivMod(n, a % n + c);
    Distribute(n, a / n, (a % n + c) / n);
    RemainderIs(n, a + c, a / n + (a % n + c) / n, (a % n + c) % n);
  }

  // ----- the same for numbers that may be negative -----

  lemma {:induction false} MulStep(p: int, q: int, x: int)
    requires p < q && x >= 1
    ensures p * x + x <= q * x
    decreases q - p
  {
    assert (p + 1) * x == p * x + x;
    if p + 1 < q {
      MulStep(p + 1, q, x);
    }
  }

  lemma DivModUnique(p: int, x: int, q: int)
    requires 0 <= q < x
    ensures (p * x + q) / x == p && (p * x + q) % x == q
  {
    var m := p * x + q;
    assert m == (m / x) * x + m % x;
    if m / x < p {
      MulStep(m / x, p, x);
    } else if p < m / x {
      MulStep(p, m / x, x);
    }
  }
}
