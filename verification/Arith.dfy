/** Division facts for mixed-radix numbers. */
module Arith {
  lemma MulStep(a: int, b: int, w: nat)
    ensures a < b ==> a * w + w <= b * w
  {
    if a < b { assert (b - a - 1) * w >= 0; assert b * w == a * w + w + (b - a - 1) * w; }
  }

  lemma DivModOf(q: nat, w: nat, r: nat)
    requires r < w
    ensures (q * w + r) / w == q && (q * w + r) % w == r
  {
    var n := q * w + r;
    var q', r' := n / w, n % w;
    assert n == q' * w + r';
    MulStep(q, q', w);
    MulStep(q', q, w);
  }

  /** A number below m * w has a digit below m and a rest below w. */
  lemma Radix(m: nat, w: nat, i: nat)
    requires i < m * w
    ensures w > 0 && m > 0 && 0 <= i / w < m && i % w < w
  {
    assert w == 0 || m == 0 ==> m * w == 0;
    assert w > 0;
    assert i == i / w * w + i % w;
    MulStep(m - 1, i / w, w);
    assert (m - 1) * w + w == m * w;
  }

  lemma ModShift(k: nat, m: nat, t: nat)
    requires m > 0
    ensures (k * m + t) % m == t % m
  {
    var q, r := t / m, t % m;
    assert t == q * m + r;
    Distribute(k, q, m);
    DivModOf(k + q, m, r);
  }

  lemma Distribute(a: nat, b: nat, c: nat)
    ensures (a + b) * c == a * c + b * c
  {}

  lemma MulAssoc(a: nat, b: nat, c: nat)
    ensures a * (b * c) == (a * b) * c
  {}

  /** Reducing modulo a multiple of m * u first does not change the digit of weight u. */
  lemma DigitOfRest(i: nat, a: nat, m: nat, u: nat)
    requires m > 0 && u > 0 && a * (m * u) > 0
    ensures ((i % (a * (m * u))) / u) % m == (i / u) % m
  {
    var w := a * (m * u);
    var q, r := i / w, i % w;
    var t, s := r / u, r % u;
    var c := (q * a) * m;
    assert q * w == c * u by { MulAssoc(q, a, m * u); MulAssoc(q * a, m, u); }
    assert i == q * w + r && r == t * u + s;
    Distribute(c, t, u);
    DivModOf(c + t, u, s);
    ModShift(q * a, m, t);
  }

  lemma DivModEqual(i: nat, j: nat, w: nat)
    requires w > 0
    ensures i / w == j / w && i % w == j % w ==> i == j
  {
    assert i == i / w * w + i % w && j == j / w * w + j % w;
  }

  lemma DivModOrder(i: nat, j: nat, w: nat)
    requires w > 0 && i < j
    ensures i / w < j / w || (i / w == j / w && i % w < j % w)
  {
    assert i == i / w * w + i % w && j == j / w * w + j % w;
    MulStep(j / w, i / w, w);
  }

  lemma Exceeds(gap: nat, d: nat, count: nat)
    requires d > 0
    ensures count * d > gap <==> count > gap / d
  {
    assert gap == gap / d * d + gap % d;
    MulStep(gap / d, count, d);
    MulStep(count, gap / d, d);
  }

  lemma NextMultiple(count: nat, s: int)
    ensures (count + 1) * s == count * s + s
  {}

  lemma NegMultiple(count: nat, s: int)
    ensures count * (-s) == -(count * s)
  {}
}
