/**
 The number theory RSA rests on: congruences, greatest common divisors, Euclid's lemma,
 the binomial theorem, Fermat's little theorem and the Chinese remainder theorem.
 */
module Numbers {

  function Pow(b: int, e: nat): int {
    if e == 0 then 1 else b * Pow(b, e - 1)
  }

  function Abs(x: int): nat { if x < 0 then -x else x }

  /** a and b leave the same remainder modulo m. */
  ghost predicate Cong(a: int, b: int, m: int)
    requires m > 0
  {
    exists k: int :: a == b + m * k
  }

  // ---------- congruences ----------

  lemma CongMod(a: int, m: int)
    requires m > 0
    ensures Cong(a, a % m, m)
  {
    assert a == a % m + m * (a / m);
  }

  lemma CongBy(a: int, b: int, m: int, k: int)
    requires m > 0 && a == b + m * k
    ensures Cong(a, b, m) && Cong(b, a, m)
  {
    assert b == a + m * (-k);
  }

  lemma CongSame(a: int, b: int, m: int)
    requires m > 0 && Cong(a, b, m)
    ensures a % m == b % m
  {
    var k: int :| a == b + m * k;
    ModShift(b, m, k);
  }

  lemma ModShift(b: int, m: int, k: int)
    requires m > 0
    ensures (b + m * k) % m == b % m
  {
    var q, r := b / m, b % m;
    assert b + m * k == m * (q + k) + r;
    QuotientUnique(b + m * k, m, q + k, r);
  }

  /** Division has one quotient and remainder. */
  lemma QuotientUnique(a: int, m: int, q: int, r: int)
    requires m > 0 && 0 <= r < m && a == m * q + r
    ensures a / m == q && a % m == r
  {
    var q', r' := a / m, a % m;
    assert a == m * q' + r';
    assert m * (q - q') == r' - r;
    if q - q' >= 1 {
      MulLe(1, q - q', m);
    } else if q - q' <= -1 {
      MulLe(1, q' - q, m);
    }
  }

  lemma MulLe(a: int, b: int, m: int)
    requires a <= b && m >= 0
    ensures a * m <= b * m && m * a <= m * b
  {
    assert (b - a) * m >= 0;
  }

  lemma MulAssoc(a: int, b: int, c: int)
    ensures (a * b) * c == a * (b * c)
  {
  }

  lemma MulDistribute(a: int, b: int, c: int)
    ensures a * (b + c) == a * b + a * c && (b + c) * a == b * a + c * a
  {
  }

  lemma CongFromMod(a: int, b: int, m: int)
    requires m > 0 && a % m == b % m
    ensures Cong(a, b, m)
  {
    assert a == m * (a / m) + a % m;
    assert b == m * (b / m) + b % m;
    assert m * (a / m) - m * (b / m) == m * (a / m - b / m);
    CongBy(a, b, m, a / m - b / m);
  }

  lemma CongSym(a: int, b: int, m: int)
    requires m > 0 && Cong(a, b, m)
    ensures Cong(b, a, m)
  {
    var k: int :| a == b + m * k;
    CongBy(a, b, m, k);
  }

  lemma CongTrans(a: int, b: int, c: int, m: int)
    requires m > 0 && Cong(a, b, m) && Cong(b, c, m)
    ensures Cong(a, c, m)
  {
    var k: int :| a == b + m * k;
    var j: int :| b == c + m * j;
    assert m * k + m * j == m * (k + j);
    CongBy(a, c, m, k + j);
  }

  lemma CongAdd(a: int, b: int, c: int, d: int, m: int)
    requires m > 0 && Cong(a, b, m) && Cong(c, d, m)
    ensures Cong(a + c, b + d, m) && Cong(a - c, b - d, m)
  {
    var k: int :| a == b + m * k;
    var j: int :| c == d + m * j;
    assert m * k + m * j == m * (k + j);
    assert m * k - m * j == m * (k - j);
    CongBy(a + c, b + d, m, k + j);
    CongBy(a - c, b - d, m, k - j);
  }

  lemma CongMul(a: int, b: int, c: int, d: int, m: int)
    requires m > 0 && Cong(a, b, m) && Cong(c, d, m)
    ensures Cong(a * c, b * d, m)
  {
    var k: int :| a == b + m * k;
    var j: int :| c == d + m * j;
    MulExpand(b, d, m, k, j);
    CongBy(a * c, b * d, m, b * j + d * k + m * k * j);
  }

  lemma MulExpand(b: int, d: int, m: int, k: int, j: int)
    ensures (b + m * k) * (d + m * j) == b * d + m * (b * j + d * k + m * k * j)
  {
    calc {
      (b + m * k) * (d + m * j);
      b * (d + m * j) + (m * k) * (d + m * j);
      b * d + b * (m * j) + (m * k) * d + (m * k) * (m * j);
      { assert b * (m * j) == m * (b * j);
        assert (m * k) * d == m * (d * k);
        assert (m * k) * (m * j) == m * (m * k * j); }
      b * d + m * (b * j) + m * (d * k) + m * (m * k * j);
      b * d + m * (b * j + d * k + m * k * j);
    }
  }

  lemma {:induction false} CongPow(a: int, b: int, e: nat, m: int)
    requires m > 0 && Cong(a, b, m)
    ensures Cong(Pow(a, e), Pow(b, e), m)
  {
    if e == 0 {
      CongBy(1, 1, m, 0);
    } else {
      CongPow(a, b, e - 1, m);
      CongMul(a, b, Pow(a, e - 1), Pow(b, e - 1), m);
    }
  }

  // ---------- powers ----------

  lemma {:induction false} PowAdd(b: int, x: nat, y: nat)
    ensures Pow(b, x + y) == Pow(b, x) * Pow(b, y)
  {
    if x > 0 {
      PowAdd(b, x - 1, y);
      assert b * (Pow(b, x - 1) * Pow(b, y)) == (b * Pow(b, x - 1)) * Pow(b, y);
    }
  }

  lemma {:induction false} PowMul(b: int, x: nat, y: nat)
    ensures Pow(Pow(b, x), y) == Pow(b, x * y)
  {
    if y == 0 {
      assert x * 0 == 0;
    } else {
      PowMul(b, x, y - 1);
      assert x * y == x + x * (y - 1);
      PowAdd(b, x, x * (y - 1));
    }
  }

  lemma {:induction false} PowOne(e: nat)
    ensures Pow(1, e) == 1
  {
    if e > 0 { PowOne(e - 1); }
  }

  lemma PowZero(e: nat)
    requires e > 0
    ensures Pow(0, e) == 0
  {
  }

  lemma {:induction false} PowPositive(b: int, e: nat)
    requires b > 0
    ensures Pow(b, e) > 0
  {
    if e > 0 {
      PowPositive(b, e - 1);
      MulLe(1, b, Pow(b, e - 1));
    }
  }

  lemma {:induction false} PowMonotone(b: int, x: nat, y: nat)
    requires b >= 1 && x <= y
    ensures Pow(b, x) <= Pow(b, y)
    decreases y - x
  {
    if x < y {
      PowMonotone(b, x, y - 1);
      PowPositive(b, y - 1);
      MulLe(1, b, Pow(b, y - 1));
    }
  }

  /** The last binary digit of a remainder, and the others. */
  lemma HalfRemainder(r: nat, w: nat)
    requires w > 0
    ensures r % (2 * w) == 2 * ((r / 2) % w) + r % 2
  {
    var q, m := (r / 2) / w, (r / 2) % w;
    assert r / 2 == w * q + m;
    MulAssoc(2, w, q);
    QuotientUnique(r, 2 * w, q, 2 * m + r % 2);
  }

  lemma PowersOfTwo()
    ensures Pow(2, 12) == 0x1000 && Pow(2, 14) == 0x4000 && Pow(2, 16) == 0x1_0000 && Pow(2, 32) == 0x1_0000_0000
  {
    assert Pow(2, 4) == 16 by { assert Pow(2, 2) == 4; }
    PowAdd(2, 4, 4);
    PowAdd(2, 4, 8);
    PowAdd(2, 12, 2);
    assert Pow(2, 2) == 4;
    PowAdd(2, 8, 8);
    PowAdd(2, 16, 16);
  }

  // ---------- greatest common divisors ----------

  /** mpz_gcd of nonnegative numbers. */
  function Gcd(a: nat, b: nat): nat
    decreases b
  {
    if b == 0 then a else Gcd(b, a % b)
  }

  ghost predicate Divides(d: int, n: int) { exists k: int :: n == d * k }

  lemma DividesBy(d: int, n: int, k: int)
    requires n == d * k
    ensures Divides(d, n)
  {
  }

  lemma DividesMod(d: int, n: int)
    requires d > 0
    ensures Divides(d, n) <==> n % d == 0
  {
    if Divides(d, n) {
      var k: int :| n == d * k;
      QuotientUnique(n, d, k, 0);
    }
    if n % d == 0 {
      assert n == d * (n / d);
    }
  }

  lemma DividesCombine(d: int, a: int, b: int, x: int, y: int)
    requires Divides(d, a) && Divides(d, b)
    ensures Divides(d, a * x + b * y)
  {
    var k: int :| a == d * k;
    var j: int :| b == d * j;
    assert (d * k) * x == d * (k * x);
    assert (d * j) * y == d * (j * y);
    assert d * (k * x) + d * (j * y) == d * (k * x + j * y);
    DividesBy(d, a * x + b * y, k * x + j * y);
  }

  /** Bezout coefficients of the greatest common divisor. */
  lemma {:induction false} Bezout(a: nat, b: nat) returns (x: int, y: int)
    ensures a * x + b * y == Gcd(a, b)
    decreases b
  {
    if b == 0 {
      x, y := 1, 0;
    } else {
      var x', y' := Bezout(b, a % b);
      var q := a / b;
      assert a == b * q + a % b;
      x, y := y', x' - q * y';
      calc {
        a * x + b * y;
        (b * q + a % b) * y' + b * (x' - q * y');
        { assert (b * q + a % b) * y' == (b * q) * y' + (a % b) * y';
          assert b * (x' - q * y') == b * x' - b * (q * y');
          assert (b * q) * y' == b * (q * y'); }
        b * x' + (a % b) * y';
      }
    }
  }

  lemma {:induction false} GcdDivides(a: nat, b: nat)
    ensures Divides(Gcd(a, b), a) && Divides(Gcd(a, b), b)
    decreases b
  {
    if b == 0 {
      DividesBy(a, a, 1);
      DividesBy(a, 0, 0);
    } else {
      GcdDivides(b, a % b);
      assert a == b * (a / b) + (a % b) * 1;
      DividesCombine(Gcd(a, b), b, a % b, a / b, 1);
    }
  }

  lemma GcdPositive(a: nat, b: nat)
    requires a > 0 || b > 0
    ensures Gcd(a, b) > 0
  {
    if b > 0 {
      GcdDivides(a, b);
    }
  }

  /** Coprimality is having an integer combination equal to 1. */
  lemma CoprimeBy(a: nat, b: nat, x: int, y: int)
    requires a * x + b * y == 1
    ensures Gcd(a, b) == 1
  {
    GcdDivides(a, b);
    DividesCombine(Gcd(a, b), a, b, x, y);
    var k: int :| 1 == Gcd(a, b) * k;
    UnitFactor(Gcd(a, b), k);
  }

  lemma UnitFactor(g: nat, k: int)
    requires g * k == 1
    ensures g == 1
  {
    if g >= 2 {
      if k >= 1 { MulLe(1, k, g); }
      else { MulLe(k, 0, g); }
    }
  }

  /** A divisor of a product that is coprime to one factor divides the other. */
  lemma CoprimeDivides(d: nat, a: int, b: int, x: int, y: int)
    requires d * x + a * y == 1 && Divides(d, a * b)
    ensures Divides(d, b)
  {
    var k: int :| a * b == d * k;
    calc {
      b;
      (d * x + a * y) * b;
      { assert (d * x + a * y) * b == (d * x) * b + (a * y) * b; }
      (d * x) * b + (a * y) * b;
      { assert (d * x) * b == d * (x * b); assert (a * y) * b == (a * b) * y; }
      d * (x * b) + (d * k) * y;
      { assert (d * k) * y == d * (k * y); }
      d * (x * b) + d * (k * y);
      d * (x * b + k * y);
    }
    DividesBy(d, b, x * b + k * y);
  }

  // ---------- primes ----------

  ghost predicate Prime(p: int) {
    p >= 2 && forall d: int :: 1 < d < p ==> !Divides(d, p)
  }

  lemma DividesLe(d: int, n: int)
    requires d > 0 && n > 0 && Divides(d, n)
    ensures d <= n
  {
    var k: int :| n == d * k;
    if k <= 0 { MulLe(k, 0, d); } else { MulLe(1, k, d); }
  }

  /** A prime is coprime to what it does not divide. */
  lemma PrimeCoprime(p: nat, a: nat)
    requires Prime(p) && !Divides(p, a)
    ensures Gcd(p, a) == 1
  {
    GcdDivides(p, a);
    GcdPositive(p, a);
    var g := Gcd(p, a);
    DividesLe(g, p);
  }

  lemma EuclidsLemma(p: nat, a: nat, b: int)
    requires Prime(p) && Divides(p, a * b)
    ensures Divides(p, a) || Divides(p, b)
  {
    if !Divides(p, a) {
      PrimeCoprime(p, a);
      var x, y := Bezout(p, a);
      CoprimeDivides(p, a, b, x, y);
    }
  }

  /** Two primes neither of which divides the other. */
  lemma DistinctPrimes(p: nat, q: nat)
    requires Prime(p) && Prime(q) && p != q
    ensures !Divides(p, q) && !Divides(q, p)
  {
    if Divides(p, q) { DividesLe(p, q); }
    if Divides(q, p) { DividesLe(q, p); }
  }

  // ---------- binomial coefficients and Fermat's little theorem ----------

  function Choose(n: nat, k: nat): nat {
    if k == 0 then 1
    else if n == 0 then 0
    else Choose(n - 1, k - 1) + Choose(n - 1, k)
  }

  lemma {:induction false} ChooseAbove(n: nat, k: nat)
    requires k > n
    ensures Choose(n, k) == 0
  {
    if n > 0 {
      ChooseAbove(n - 1, k - 1);
      ChooseAbove(n - 1, k);
    }
  }

  lemma {:induction false} ChooseSelf(n: nat)
    ensures Choose(n, n) == 1
  {
    if n > 0 {
      ChooseSelf(n - 1);
      ChooseAbove(n - 1, n);
    }
  }

  lemma {:induction false} ChooseAbsorb(n: nat, k: nat)
    requires n >= 1 && k >= 1
    ensures k * Choose(n, k) == n * Choose(n - 1, k - 1)
  {
    if n == 1 {
      if k >= 2 { ChooseAbove(0, k - 1); ChooseAbove(1, k); }
    } else if k == 1 {
      ChooseAbsorb(n - 1, 1);
    } else {
      ChooseAbsorb(n - 1, k);
      ChooseAbsorb(n - 1, k - 1);
      AbsorbAlgebra(n, k, Choose(n - 1, k), Choose(n - 2, k - 2), Choose(n - 2, k - 1));
    }
  }

  lemma AbsorbAlgebra(n: int, k: int, d: int, e: int, f: int)
    requires (k - 1) * (e + f) == (n - 1) * e && k * d == (n - 1) * f
    ensures k * ((e + f) + d) == n * (e + f)
  {
    var c := e + f;
    MulDistribute(k, c, d);
    MulDistribute(c, k - 1, 1);
    MulDistribute(n - 1, e, f);
    MulDistribute(c, n - 1, 1);
  }

  lemma PrimeDividesChoose(p: nat, k: nat)
    requires Prime(p) && 0 < k < p
    ensures Divides(p, Choose(p, k))
  {
    ChooseAbsorb(p, k);
    DividesBy(p, k * Choose(p, k), Choose(p - 1, k - 1));
    EuclidsLemma(p, k, Choose(p, k));
    if Divides(p, k) { DividesLe(p, k); }
  }

  /** The first k + 1 terms of the expansion of (x + 1)^n. */
  function Expansion(n: nat, x: int, k: nat): int {
    if k == 0 then 1 else Expansion(n, x, k - 1) + Choose(n, k) * Pow(x, k)
  }

  lemma {:induction false} ExpansionStep(n: nat, x: int, k: nat)
    ensures Expansion(n + 1, x, k) == Expansion(n, x, k) + (if k == 0 then 0 else x * Expansion(n, x, k - 1))
  {
    if k == 1 {
      StepAlgebra(x, 1, Choose(n, 1), Pow(x, 0), 0);
      assert Expansion(n, x, 0) == 1 && Expansion(n + 1, x, 0) == 1 && Pow(x, 1) == x * Pow(x, 0);
    } else if k > 1 {
      ExpansionStep(n, x, k - 1);
      StepAlgebra(x, Choose(n, k - 1), Choose(n, k), Pow(x, k - 1), Expansion(n, x, k - 2));
    }
  }

  lemma StepAlgebra(x: int, c: int, d: int, w: int, rest: int)
    ensures x * rest + (c + d) * (x * w) == d * (x * w) + x * (rest + c * w)
  {
    MulDistribute(x * w, c, d);
    MulDistribute(x, rest, c * w);
    MulAssoc(c, x, w);
    MulAssoc(x, c, w);
  }

  lemma {:induction false} BinomialTheorem(n: nat, x: int)
    ensures Pow(x + 1, n) == Expansion(n, x, n)
  {
    if n > 0 {
      BinomialTheorem(n - 1, x);
      ExpansionStep(n - 1, x, n);
      ChooseAbove(n - 1, n);
      assert 0 * Pow(x, n) == 0;
      var s := Expansion(n - 1, x, n - 1);
      assert (x + 1) * s == s + x * s;
    }
  }

  lemma {:induction false} ExpansionMod(p: nat, x: int, k: nat)
    requires Prime(p) && k < p
    ensures Cong(Expansion(p, x, k), 1, p)
  {
    if k == 0 {
      CongBy(1, 1, p, 0);
    } else {
      ExpansionMod(p, x, k - 1);
      PrimeDividesChoose(p, k);
      MultipleOf(p, Choose(p, k), Pow(x, k));
      CongAdd(Expansion(p, x, k - 1), 1, Choose(p, k) * Pow(x, k), 0, p);
    }
  }

  lemma MultipleOf(p: nat, c: int, w: int)
    requires p > 0 && Divides(p, c)
    ensures Cong(c * w, 0, p)
  {
    var j: int :| c == p * j;
    MulAssoc(p, j, w);
    CongBy(c * w, 0, p, j * w);
  }

  lemma {:induction false} FermatNat(p: nat, x: nat)
    requires Prime(p)
    ensures Cong(Pow(x, p), x, p)
  {
    if x == 0 {
      PowZero(p);
      CongBy(0, 0, p, 0);
    } else {
      var y := x - 1;
      FermatNat(p, y);
      BinomialTheorem(p, y);
      ExpansionMod(p, y, p - 1);
      ChooseSelf(p);
      CongAdd(Expansion(p, y, p - 1), 1, Pow(y, p), y, p);
    }
  }

  /** Fermat's little theorem. */
  lemma Fermat(p: nat, a: nat)
    requires Prime(p) && !Divides(p, a)
    ensures Cong(Pow(a, p - 1), 1, p)
  {
    FermatNat(p, a);
    var k: int :| Pow(a, p) == a + p * k;
    var w := Pow(a, p - 1);
    assert a * w - a == a * (w - 1);
    DividesBy(p, a * (w - 1), k);
    EuclidsLemma(p, a, w - 1);
    var j: int :| w - 1 == p * j;
    CongBy(w, 1, p, j);
  }

  /** Exponents of a number not divisible by p count modulo p - 1. */
  lemma FermatExponent(p: nat, a: nat, e: nat, k: nat)
    requires Prime(p) && !Divides(p, a)
    ensures Cong(Pow(a, e + (p - 1) * k), Pow(a, e), p)
  {
    Fermat(p, a);
    PowAdd(a, e, (p - 1) * k);
    PowMul(a, p - 1, k);
    CongPow(Pow(a, p - 1), 1, k, p);
    PowOne(k);
    CongBy(Pow(a, e), Pow(a, e), p, 0);
    CongMul(Pow(a, e), Pow(a, e), Pow(a, (p - 1) * k), 1, p);
  }

  // ---------- the Chinese remainder theorem ----------

  lemma ChineseDivides(p: nat, q: nat, x: int)
    requires Prime(p) && Prime(q) && p != q && Divides(p, x) && Divides(q, x)
    ensures Divides(p * q, x)
  {
    var k: int :| x == p * k;
    DistinctPrimes(p, q);
    PrimeCoprime(q, p);
    var a, b := Bezout(q, p);
    CoprimeDivides(q, p, k, a, b);
    var j: int :| k == q * j;
    MulAssoc(p, q, j);
    DividesBy(p * q, x, j);
  }

  /** A value is determined modulo p * q by its remainders modulo p and q. */
  lemma ChineseUnique(p: nat, q: nat, x: int, y: int)
    requires Prime(p) && Prime(q) && p != q
    requires Cong(x, y, p) && Cong(x, y, q)
    ensures p * q > 0 && Cong(x, y, p * q)
  {
    MulLe(1, p, q);
    var k: int :| x == y + p * k;
    var j: int :| x == y + q * j;
    DividesBy(p, x - y, k);
    DividesBy(q, x - y, j);
    ChineseDivides(p, q, x - y);
    var i: int :| x - y == (p * q) * i;
    CongBy(x, y, p * q, i);
  }

  /** Congruence modulo a multiple implies congruence modulo the factor. */
  lemma CongFactor(a: int, b: int, m: int, n: int)
    requires m > 0 && n > 0 && m * n > 0 && Cong(a, b, m * n)
    ensures Cong(a, b, m) && Cong(a, b, n)
  {
    var k: int :| a == b + (m * n) * k;
    assert (m * n) * k == m * (n * k) && (m * n) * k == n * (m * k);
    CongBy(a, b, m, n * k);
    CongBy(a, b, n, m * k);
  }
}
