/** Products, quotients and remainders of naturals, and decimal rounding. */
module Arithmetic {
  function SaturatingSub(a: nat, b: nat): nat {
    if a >= b then a - b else 0
  }

  function AbsDiff(a: nat, b: nat): nat {
    if a >= b then a - b else b - a
  }

  lemma ProductGrows(a: nat, b: nat, c: nat)
    requires a <= b
    ensures a * c <= b * c
  {
  }

  lemma Distribute(a: int, b: int, c: int)
    ensures (a + b) * c == a * c + b * c
    ensures (a - b) * c == a * c - b * c
  {
  }

  lemma Associate(a: int, b: int, c: int)
    ensures (a * b) * c == a * (b * c)
  {
  }

  lemma DivMod(x: nat, m: nat) returns (q: nat, r: nat)
    requires m > 0
    ensures q == x / m && r == x % m && x == q * m + r && r < m
  {
    q, r := x / m, x % m;
  }

  lemma NextMultiple(q: nat, r: nat, m: nat)
    requires q < r
    ensures q * m + m <= r * m
  {
    ProductGrows(q + 1, r, m);
    Distribute(q, 1, m);
  }

  /** Quotient and remainder are determined by their product form. */
  lemma QuotientAndRemainder(x: nat, m: nat, q: nat, r: nat)
    requires m > 0 && x == q * m + r && r < m
    ensures x / m == q && x % m == r
  {
    var q', r' := DivMod(x, m);
    if q < q' {
      NextMultiple(q, q', m);
    } else if q' < q {
      NextMultiple(q', q, m);
    }
  }

  /** Two numbers less than `m` apart with the same remainder are the same. */
  lemma SameRemainder(a: nat, b: nat, m: nat)
    requires m > 0 && a <= b < a + m && a % m == b % m
    ensures a == b
  {
    var q, r := DivMod(a, m);
    var q', r' := DivMod(b, m);
    if q < q' {
      NextMultiple(q, q', m);
    } else if q' < q {
      NextMultiple(q', q, m);
    }
  }

  /** Among any `p` consecutive numbers one has each remainder modulo `p`. */
  lemma HitsRemainder(base: nat, want: nat, p: nat) returns (m: nat)
    requires want < p
    ensures base <= m < base + p && m % p == want
  {
    var q, r := DivMod(base, p);
    Distribute(q, 1, p);
    if want >= r {
      m := base + (want - r);
      QuotientAndRemainder(m, p, q, want);
    } else {
      m := base + (want + p - r);
      QuotientAndRemainder(m, p, q + 1, want);
    }
  }

  lemma QuotientBounds(k: nat, interval: nat, window: nat)
    requires interval > 0 && k * interval <= window
    ensures k <= window / interval
  {
    var q, r := DivMod(window, interval);
    if q < k {
      NextMultiple(q, k, interval);
    }
  }

  /** Round half away from zero to two decimals. */
  function Round2(v: real): real {
    if v >= 0.0 then (v * 100.0 + 0.5).Floor as real / 100.0 else -((-v * 100.0 + 0.5).Floor as real / 100.0)
  }

  lemma FloorMonotone(u: real, v: real)
    requires u <= v
    ensures u.Floor <= v.Floor
  {
  }

  lemma RoundMonotone(u: real, v: real)
    requires u <= v
    ensures Round2(u) <= Round2(v)
  {
    if u >= 0.0 {
      FloorMonotone(u * 100.0 + 0.5, v * 100.0 + 0.5);
    } else if v < 0.0 {
      FloorMonotone(-v * 100.0 + 0.5, -u * 100.0 + 0.5);
    } else {
      FloorMonotone(0.5, -u * 100.0 + 0.5);
      FloorMonotone(0.5, v * 100.0 + 0.5);
    }
  }

  /** Nearest hundredth, halves away from zero. */
  lemma RoundNearest(v: real)
    ensures var r := Round2(v);
      && v - 0.005 <= r <= v + 0.005
      && (r * 100.0).Floor as real == r * 100.0
      && (v >= 0.0 ==> r > v - 0.005)
      && (v < 0.0 ==> r < v + 0.005)
  {
    var f := if v >= 0.0 then (v * 100.0 + 0.5).Floor else -(-v * 100.0 + 0.5).Floor;
    assert Round2(v) * 100.0 == f as real;
  }
}
