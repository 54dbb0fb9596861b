/** Exactly when the rasteriser's 16-bit sign test is right (roth_c/src/engine/automap.c). */
module AutomapSign {
  import opened MachineInt
  import opened AutomapDraw

  function Gcd(a: nat, b: nat): nat
    decreases b
  {
    if b == 0 then a else Gcd(b, a % b)
  }

  /** The greatest common divisor divides both, and is a combination of them. */
  lemma {:induction false} Bezout(a: nat, b: nat) returns (x: int, y: int, p: nat, q: nat)
    ensures a == Gcd(a, b) * p && b == Gcd(a, b) * q && a * x + b * y == Gcd(a, b)
    decreases b
  {
    if b == 0 {
      x, y, p, q := 1, 0, 1, 0;
    } else {
      var x', y', p', q' := Bezout(b, a % b);
      var k, g := a / b, Gcd(a, b);
      assert a == b * k + a % b;
      x, y, p, q := y', x' - k * y', p' * k + q', p';
      BezoutStep(a, b, a % b, k, g, x', y', p', q');
    }
  }

  lemma BezoutStep(a: nat, b: nat, rest: nat, k: nat, g: nat, x: int, y: int, p: nat, q: nat)
    requires a == b * k + rest && b == g * p && rest == g * q && b * x + rest * y == g
    ensures a == g * (p * k + q) && a * y + b * (x - k * y) == g
  {
    assert g * (p * k + q) == (g * p) * k + g * q;
    assert a * y == b * k * y + rest * y;
    assert b * (x - k * y) == b * x - b * (k * y) && b * k * y == b * (k * y);
  }

  /** The decision variable at step `k`. */
  function ErrAt(M: nat, m: nat, k: nat): int { Err(M, m, k, MinorAt(M, m, k)) }

  /** The least and the greatest value the variable takes. */
  function Least(M: nat, m: nat): int
    requires 0 < M
  {
    2 * m - 2 * M + if Odd(M, m) then Gcd(M, m) else 0
  }

  function Greatest(M: nat, m: nat): int
    requires 0 < M
  {
    2 * m - if Odd(M, m) then Gcd(M, m) else 2 * Gcd(M, m)
  }

  lemma {:induction false} GcdPositive(a: nat, b: nat)
    requires 0 < a || 0 < b
    ensures 0 < Gcd(a, b)
    decreases b
  {
    if b != 0 { GcdPositive(b, a % b); }
  }

  /** The major delta is an odd multiple of the common divisor. */
  predicate Odd(M: nat, m: nat)
    requires 0 < M
  {
    GcdPositive(M, m);
    (M / Gcd(M, m)) % 2 == 1
  }

  lemma Quotient(g: nat, q: nat)
    requires 0 < g
    ensures (g * q) / g == q
  {
    QuotientUnique(g * q, g, q);
  }

  /** Every value is the common divisor times a number of the parity of M / g. */
  lemma ValueForm(M: nat, m: nat, k: nat, g: nat, p: nat, q: nat) returns (j: int)
    requires M == g * q && m == g * p
    ensures j == p * (k + 1) - q * MinorAt(M, m, k) && ErrAt(M, m, k) == g * (2 * j - q)
  {
    var s := MinorAt(M, m, k);
    j := p * (k + 1) - q * s;
    assert g * (2 * j - q) == 2 * (g * p) * (k + 1) - 2 * (g * q) * s - g * q;
  }

  lemma Bounds(M: nat, m: nat, k: nat)
    requires 0 < M && m <= M
    ensures Least(M, m) <= ErrAt(M, m, k) <= Greatest(M, m)
  {
    var x, y, q, p := Bezout(M, m);
    var g := Gcd(M, m);
    GcdPositive(M, m);
    Quotient(g, q);
    BoundsBy(M, m, k, g, p, q);
  }

  lemma BoundsBy(M: nat, m: nat, k: nat, g: nat, p: nat, q: nat)
    requires 0 < M && m <= M && 0 < g && M == g * q && m == g * p
    ensures 2 * m - 2 * M + (if q % 2 == 1 then g else 0) <= ErrAt(M, m, k) <= 2 * m - (if q % 2 == 1 then g else 2 * g)
  {
    var j := ValueForm(M, m, k, g, p, q);
    var pi: int, qi: int := p, q;
    MinorStep(M, m, k);
    WindowEnds(g, p, q);
    Window(g, 2 * j - qi, 2 * pi - 2 * qi, 2 * pi);
    Times(g, p, q, 2 * j - qi);
  }

  lemma WindowEnds(g: int, p: int, q: int)
    ensures g * (2 * p - 2 * q) == 2 * (g * p) - 2 * (g * q) && g * (2 * p) == 2 * (g * p)
  {
  }

  /** A multiple of `g` in a window of multiples of `g`. */
  lemma Window(g: nat, v: int, lo: int, hi: int)
    requires 0 < g && g * lo <= g * v < g * hi
    ensures lo <= v < hi
  {
    if v < lo { Scale(v + 1, lo, g); }
    if hi <= v { Scale(hi, v, g); }
  }

  lemma Times(g: nat, p: nat, q: nat, v: int)
    requires 0 < g && 2 * p - 2 * q <= v < 2 * p && (v - q) % 2 == 0
    ensures 2 * (g * p) - 2 * (g * q) + (if q % 2 == 1 then g else 0) <= g * v
    ensures g * v <= 2 * (g * p) - (if q % 2 == 1 then g else 2 * g)
  {
    var odd := q % 2;
    SameParity(p, q, v, odd);
    Ordered(g, 2 * p - 2 * q + odd, v);
    Ordered(g, v, 2 * p - 2 + odd);
    EndForms(g, p, q, odd);
  }

  lemma SameParity(p: int, q: int, v: int, odd: int)
    requires 2 * p - 2 * q <= v < 2 * p && (v - q) % 2 == 0 && odd == q % 2
    ensures 2 * p - 2 * q + odd <= v <= 2 * p - 2 + odd
  {
    var h, r := (v - q) / 2, q / 2;
    assert v - q == 2 * h && q == 2 * r + odd;
    Halves(p, q, h + r, odd);
  }

  lemma Halves(p: int, q: int, h: int, odd: int)
    requires 0 <= odd <= 1 && 2 * p - 2 * q <= 2 * h + odd < 2 * p
    ensures p - q <= h <= p - 1
  {
  }

  lemma Ordered(g: nat, a: int, b: int)
    requires a <= b
    ensures g * a <= g * b
  {
    Scale(a, b, g);
  }

  lemma EndForms(g: int, p: int, q: int, odd: int)
    requires odd == 0 || odd == 1
    ensures g * (2 * p - 2 * q + odd) == 2 * (g * p) - 2 * (g * q) + (if odd == 1 then g else 0)
    ensures g * (2 * p - 2 + odd) == 2 * (g * p) - (if odd == 1 then g else 2 * g)
  {
    assert g * (2 * p - 2 * q) == 2 * (g * p) - 2 * (g * q);
    assert g * (2 * p - 2) == 2 * (g * p) - 2 * g;
    if odd == 1 { Plus(g, 2 * p - 2 * q); Plus(g, 2 * p - 2); }
  }

  lemma Plus(g: int, a: int)
    ensures g * (a + 1) == g * a + g
  {
  }

  /** Every value of that form in the window is taken at some step. */
  lemma Attained(M: nat, m: nat, j: int) returns (k: nat)
    requires 0 < M && m <= M && 2 * m - 2 * M <= Gcd(M, m) * (2 * j) - M < 2 * m
    ensures k < M && ErrAt(M, m, k) == Gcd(M, m) * (2 * j) - M
  {
    var x, y, q, p := Bezout(M, m);
    var g := Gcd(M, m);
    GcdPositive(M, m);
    Unit(g, q, x, p, y);
    Positive(g, q);
    var u, z := Residue(y * j, q);
    k := u - 1;
    var Z := Combination(p, q, x, y, j, u, z);
    Scale(1, g, q);
    HitsValue(M, m, k, g, p, q, j, Z);
  }

  lemma HitsValue(M: nat, m: nat, k: nat, g: nat, p: nat, q: nat, j: int, Z: int)
    requires 0 < M && m <= M && M == g * q && m == g * p && p * (k + 1) == j + q * Z
    requires 2 * m - 2 * M <= g * (2 * j) - M < 2 * m
    ensures ErrAt(M, m, k) == g * (2 * j) - M
  {
    var i := ValueForm(M, m, k, g, p, q);
    var s: int := MinorAt(M, m, k);
    assert q * (Z - s) == q * Z - q * s;
    MinorStep(M, m, k);
    SameWindow(M, g, q, j, i, Z - s, 2 * m - 2 * M);
  }

  lemma Unit(g: nat, q: nat, x: int, p: nat, y: int)
    requires 0 < g && (g * q) * x + (g * p) * y == g
    ensures q * x + p * y == 1
  {
    assert g * (q * x + p * y) == g * 1;
    var a := q * x + p * y;
    if a < 1 { Scale(a + 1, 1, g); }
    if 1 < a { Scale(2, a, g); }
  }

  lemma Positive(g: nat, q: nat)
    requires 0 < g * q
    ensures 0 < q
  {
  }

  /** A representative between 1 and `q`. */
  lemma Residue(a: int, q: nat) returns (u: nat, z: int)
    requires 0 < q
    ensures 1 <= u <= q && u == a - q * z
  {
    u, z := a % q, a / q;
    assert a == q * (a / q) + a % q;
    if u == 0 { u, z := q, z - 1; }
  }

  lemma Combination(p: int, q: int, x: int, y: int, j: int, u: int, z: int) returns (Z: int)
    requires q * x + p * y == 1 && u == y * j - q * z
    ensures p * u == j + q * Z
  {
    Z := -(x * j + p * z);
    assert p * (y * j) == (p * y) * j;
    assert (p * y) * j == j - (q * x) * j;
    assert p * (q * z) == q * (p * z) && (q * x) * j == q * (x * j);
    assert p * u == p * (y * j) - p * (q * z);
  }

  lemma SameWindow(M: nat, g: nat, q: nat, j: int, i: int, Z: int, lo: int)
    requires 0 < M && M == g * q && i == j + q * Z
    requires lo <= g * (2 * i - q) < lo + 2 * M && lo <= g * (2 * j) - M < lo + 2 * M
    ensures g * (2 * i - q) == g * (2 * j) - M
  {
    assert g * (2 * i - q) == g * (2 * j) - M + (2 * M) * Z by {
      assert g * (2 * i - q) == 2 * (g * j) + 2 * (g * (q * Z)) - g * q;
      assert g * (q * Z) == (g * q) * Z;
    }
    if Z < 0 { Scale(Z, -1, 2 * M); }
    if 0 < Z { Scale(1, Z, 2 * M); }
  }

  /** Both extremes are taken. */
  lemma Extremes(M: nat, m: nat) returns (low: nat, high: nat)
    requires 0 < M && m <= M
    ensures low < M && ErrAt(M, m, low) == Least(M, m)
    ensures high < M && ErrAt(M, m, high) == Greatest(M, m)
  {
    var x, y, q, p := Bezout(M, m);
    var g := Gcd(M, m);
    GcdPositive(M, m);
    Quotient(g, q);
    Positive(g, q);
    Scale(1, q, g);
    var odd := q % 2;
    var half := Half(q, odd);
    EndForms(g, p, q, odd);
    ExtremeForms(g, p, q, odd, half);
    WindowHolds(M, m, g, odd);
    var pi: int, qi: int := p, q;
    low := Attained(M, m, pi - qi + half);
    high := Attained(M, m, pi - 1 + half);
  }

  lemma Half(q: nat, odd: nat) returns (half: nat)
    requires odd == q % 2
    ensures q + odd == 2 * half
  {
    half := (q + odd) / 2;
  }

  lemma ExtremeForms(g: int, p: int, q: int, odd: int, half: int)
    requires q + odd == 2 * half
    ensures g * (2 * (p - q + half)) - g * q == g * (2 * p - 2 * q + odd)
    ensures g * (2 * (p - 1 + half)) - g * q == g * (2 * p - 2 + odd)
  {
  }

  lemma WindowHolds(M: nat, m: nat, g: nat, odd: nat)
    requires 0 < g <= M && (odd == 0 || odd == 1)
    ensures var low := 2 * m - 2 * M + if odd == 1 then g else 0; 2 * m - 2 * M <= low < 2 * m
    ensures var high := 2 * m - if odd == 1 then g else 2 * g; 2 * m - 2 * M <= high < 2 * m
  {
  }

  lemma SignTest(e: int)
    requires -0x10000 < e < 0x10000
    ensures (I16(e) >= 0 <==> e >= 0) <==> -0x8000 <= e <= 0x7fff
  {
  }

  /** The sign test is right at every step of a line if and only if the extreme values of the decision variable,
      which the deltas give, fit 16 bits. */
  lemma SignExactly(M: nat, m: nat)
    requires 0 < M <= 0x8000 && m <= M
    ensures SignRight(M, m) <==> -0x8000 <= Least(M, m) && Greatest(M, m) <= 0x7fff
  {
    var low, high := Extremes(M, m);
    if SignRight(M, m) {
      assert SignAt(M, m, low) && SignAt(M, m, high);
      SignFits(M, m, low);
      SignFits(M, m, high);
      Bounds(M, m, low);
    } else {
      var k: nat :| k < M && !SignAt(M, m, k);
      SignFits(M, m, k);
      Bounds(M, m, k);
    }
  }

  lemma SignFits(M: nat, m: nat, k: nat)
    requires 0 < M <= 0x8000 && m <= M
    ensures SignAt(M, m, k) <==> -0x8000 <= ErrAt(M, m, k) <= 0x7fff
  {
    InRange(M, m, k);
    SignTest(ErrAt(M, m, k));
  }

  lemma InRange(M: nat, m: nat, k: nat)
    requires 0 < M <= 0x8000 && m <= M
    ensures -0x10000 < ErrAt(M, m, k) < 0x10000
  {
    MinorStep(M, m, k);
    if m == 0 {
      Bounds(M, 0, k);
    }
  }
}
