/** Powers of two, and quotients. */
module Powers {

  function Pow2(k: nat): (p: nat)
    ensures p > 0
  {
    if k == 0 then 1 else 2 * Pow2(k - 1)
  }

  lemma {:induction false} Pow2Splits(a: nat, b: nat)
    ensures Pow2(a + b) == Pow2(a) * Pow2(b)
  {
    if a > 0 { Pow2Splits(a - 1, b); }
  }

  lemma BelowPower(cut: nat, width: nat)
    requires cut <= width
    ensures Pow2(cut) <= Pow2(width)
  {
    Pow2Splits(cut, width - cut);
    assert Pow2(cut) * Pow2(width - cut) >= Pow2(cut);
  }

  lemma Distribute(a: nat, c: nat, d: nat)
    ensures (a + c) * d == a * d + c * d
  {
  }

  lemma AtLeastOnce(c: nat, d: nat)
    ensures c * d >= 0 && (c > 0 ==> c * d >= d)
  {
    if c > 0 { Distribute(1, c - 1, d); }
  }

  lemma Scales(a: nat, b: nat, d: nat)
    ensures a <= b ==> a * d <= b * d
    ensures a < b ==> a * d + d <= b * d
  {
    if a <= b {
      Distribute(a, b - a, d);
      AtLeastOnce(b - a, d);
    }
  }

  /** The quotient is the one number with the remainder in range. */
  lemma QuotientIsARange(n: nat, q: nat, d: nat)
    requires d > 0
    ensures n / d == q <==> q * d <= n < q * d + d
  {
    var k := n / d;
    assert k * d <= n < k * d + d;
    Scales(k, q, d);
    Scales(q, k, d);
  }

  lemma Remainder(d: nat, q: nat, r: nat)
    requires r < d
    ensures (d * q + r) % d == r && (d * q + r) / d == q
  {
    var n := d * q + r;
    QuotientIsARange(n, q, d);
    assert n == d * (n / d) + n % d;
  }

  lemma Regroup(q: nat, a: nat, b: nat)
    requires a > 0 && b > 0
    ensures a * b > 0 && q * b * a == q * (a * b) && (q * b + b) * a == q * (a * b) + a * b
  {
  }

  lemma DivideTwice(n: nat, a: nat, b: nat)
    requires a > 0 && b > 0
    ensures a * b > 0 && n / a / b == n / (a * b)
  {
    var u := n / a;
    var q := u / b;
    QuotientIsARange(n, u, a);
    QuotientIsARange(u, q, b);
    Scales(q * b, u, a);
    Scales(u, q * b + b, a);
    Regroup(q, a, b);
    QuotientIsARange(n, q, a * b);
  }

  lemma SameMultiple(a: nat, b: nat, d: nat)
    requires d > 0
    ensures a * d == b * d <==> a == b
  {
    Scales(a, b, d);
    Scales(b, a, d);
  }
}
