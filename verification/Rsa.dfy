/**
 RSA key derivation and the RSA operations (rsa.c).  Multiple-precision integers are
 mathematical integers; mpz_powm is `Pow(b, e) % m`.
 */
module Rsa {
  import opened Numbers

  datatype PublicKey = PublicKey(bits: nat, n: nat, e: nat)
  datatype PrivateKey = PrivateKey(bits: nat, n: nat, e: nat, d: nat, u: nat, p: nat, q: nat)

  // ---------- the inverse by Euclid's algorithm ----------

  /** The state of the Euclid loop: both rows are combinations of a, the cross sum is n. */
  ghost predicate EuclidState(a: nat, n: nat, g0: nat, g1: nat, v0: int, v1: int)
    requires n > 0
  {
    && Gcd(g0, g1) == 1
    && Cong(a * v0, g0, n) && Cong(a * v1, g1, n)
    && Abs(v0) * g1 + Abs(v1) * g0 == n
    && (v0 <= 0 <= v1 || v1 <= 0 <= v0)
    && (g1 > 0 ==> g0 > 1)
    && (g1 == 0 ==> Abs(v0) < n)
  }

  /** mpz_mod_inverse: the x in (0, n) with a * x mod n = 1. */
  method ModInverse(a: nat, n: nat) returns (x: nat)
    requires n > 1 && Gcd(n, a) == 1
    ensures 0 < x < n && (a * x) % n == 1
  {
    var g0, g1, v0, v1 := n, a, 0, 1;
    EuclidStart(a, n);
    while g1 != 0
      invariant g0 >= 0 && g1 >= 0 && EuclidState(a, n, g0, g1, v0, v1)
      decreases g1
    {
      var div, mod := g0 / g1, g0 % g1;
      var aux := div * v1;
      aux := v0 - aux;
      EuclidStep(a, n, g0, g1, v0, v1);
      v0 := v1;
      v1 := aux;
      g0 := g1;
      g1 := mod;
    }
    if v0 < 0 {
      x := v0 + n;
    } else {
      x := v0;
    }
    InverseFound(a, n, v0, x);
  }

  lemma EuclidStart(a: nat, n: nat)
    requires n > 1 && Gcd(n, a) == 1
    ensures EuclidState(a, n, n, a, 0, 1)
  {
    CongBy(0, n, n, -1);
    CongBy(a, a, n, 0);
    assert a * 0 == 0 && 0 * a == 0;
  }

  lemma EuclidStep(a: nat, n: nat, g0: nat, g1: nat, v0: int, v1: int)
    requires n > 1 && g1 > 0 && EuclidState(a, n, g0, g1, v0, v1)
    ensures EuclidState(a, n, g1, g0 % g1, v1, v0 - (g0 / g1) * v1)
  {
    assert Gcd(g0, g1) == Gcd(g1, g0 % g1);
    hide EuclidState, Gcd;
    NextState(a, n, g0, g1, v0, v1, g0 / g1, g0 % g1, v0 - (g0 / g1) * v1);
  }

  lemma NextState(a: nat, n: nat, g0: nat, g1: nat, v0: int, v1: int, div: nat, mod: nat, v: int)
    requires n > 1 && g1 > 0 && EuclidState(a, n, g0, g1, v0, v1)
    requires g0 == g1 * div + mod && mod < g1 && v == v0 - div * v1 && Gcd(g1, mod) == Gcd(g0, g1)
    ensures EuclidState(a, n, g1, mod, v1, v)
  {
    hide Cong, Abs, Gcd;
    RowStep(a, n, g0, g1, v0, v1, div, mod);
    // the cross sum is unchanged
    SignAlgebra(v0, v1, div);
    CrossStep(Abs(v0), Abs(v1), Abs(v), g0, g1, div, mod, n);
    if mod == 0 {
      LastStep(n, g0, g1, div, Abs(v0), Abs(v1));
    }
  }

  /** The new row is the old difference. */
  lemma RowStep(a: nat, n: nat, g0: int, g1: int, v0: int, v1: int, div: int, mod: int)
    requires n > 0 && Cong(a * v0, g0, n) && Cong(a * v1, g1, n) && g0 == g1 * div + mod
    ensures Cong(a * (v0 - div * v1), mod, n)
  {
    CongBy(div, div, n, 0);
    CongMul(a * v1, g1, div, div, n);
    CongAdd(a * v0, g0, (a * v1) * div, g1 * div, n);
    RowAlgebra(a, v0, v1, div);
  }

  lemma RowAlgebra(a: int, v0: int, v1: int, div: int)
    ensures a * v0 - (a * v1) * div == a * (v0 - div * v1)
  {
    MulAssoc(a, v1, div);
    MulDistribute(a, v0, -(div * v1));
  }

  lemma SignAlgebra(v0: int, v1: int, div: nat)
    requires v0 <= 0 <= v1 || v1 <= 0 <= v0
    ensures var v := v0 - div * v1;
            (v1 <= 0 <= v || v <= 0 <= v1) && Abs(v) == Abs(v0) + div * Abs(v1)
  {
    if v1 >= 0 {
      MulLe(0, v1, div);
    } else {
      MulLe(v1, 0, div);
      assert div * (-v1) == -(div * v1);
    }
  }

  lemma CrossAlgebra(x: nat, y: nat, g1: nat, div: nat, mod: nat)
    ensures y * mod + (x + div * y) * g1 == x * g1 + y * (g1 * div + mod)
  {
    MulDistribute(g1, x, div * y);
    MulDistribute(y, g1 * div, mod);
    MulAssoc(div, y, g1);
    MulAssoc(y, g1, div);
    assert div * (y * g1) == (y * g1) * div;
  }

  lemma CrossStep(x: nat, y: nat, z: nat, g0: nat, g1: nat, div: nat, mod: nat, n: nat)
    requires z == x + div * y && g0 == g1 * div + mod && x * g1 + y * g0 == n
    ensures y * mod + z * g1 == n
  {
    CrossAlgebra(x, y, g1, div, mod);
  }

  /** When the remainder vanishes the divisor is 1, and the old row is still large. */
  lemma LastStep(n: nat, g0: nat, g1: nat, div: nat, x: nat, y: nat)
    requires g1 > 0 && g0 > 1 && Gcd(g1, 0) == 1 && g0 == g1 * div
    requires x * g1 + y * g0 == n && n > 1
    ensures y < n
  {
    MulLe(0, x, g1);
    if y > 0 {
      MulLe(2, g0, y);
      assert y * 2 == y + y;
    }
  }

  lemma InverseFound(a: nat, n: nat, v0: int, x: int)
    requires n > 1 && Cong(a * v0, 1, n) && Abs(v0) < n
    requires x == if v0 < 0 then v0 + n else v0
    ensures 0 < x < n && (a * x) % n == 1
  {
    if v0 < 0 {
      MulDistribute(a, v0, n);
      CongBy(a * x, a * v0, n, a);
      CongTrans(a * x, a * v0, 1, n);
    }
    CongSame(a * x, 1, n);
    QuotientUnique(1, n, 0, 1);
    if x == 0 {
      assert a * x == 0;
      QuotientUnique(0, n, 0, 0);
    }
  }

  // ---------- key derivation ----------

  /** e and d undo each other in the exponents modulo both primes. */
  ghost predicate ExponentsMatch(p: nat, q: nat, e: nat, d: nat)
    requires p > 1 && q > 1
  {
    (e * d) % (p - 1) == 1 && (e * d) % (q - 1) == 1
  }

  /** e is the first odd number above 2^ebits that is coprime to phi. */
  ghost predicate LeastExponent(e: nat, ebits: nat, phi: nat) {
    && e > Pow(2, ebits) && e % 2 == 1 && Gcd(e, phi) == 1
    && forall f: nat :: Pow(2, ebits) < f < e && f % 2 == 1 ==> Gcd(f, phi) != 1
  }

  /** derive_rsa_keys for odd primes p < q.  With ebits = 0 the candidates would be even
      and the search would not end (`EvenExponentNeverFits`). */
  method DeriveKeys(p: nat, q: nat, ebits: nat) returns (n: nat, e: nat, d: nat, u: nat)
    requires Prime(p) && Prime(q) && 2 < p < q && ebits >= 1
    ensures n == p * q
    ensures LeastExponent(e, ebits, (p - 1) * (q - 1))
    ensures ExponentsMatch(p, q, e, d)
    ensures 0 < u < q && (u * p) % q == 1
    ensures 0 < d < (p - 1) * (q - 1)
  {
    OddPrime(p);
    OddPrime(q);
    var phi := (p - 1) * (q - 1);
    var g := Gcd(p - 1, q - 1);
    GcdPositive(p - 1, q - 1);
    var f := phi / g;
    LcmFacts(p - 1, q - 1);

    e := FindExponent(phi, ebits);
    CoprimeToFactor(e, phi, f);
    d := ModInverse(e, f);
    LcmInverse(p - 1, q - 1, f, e * d);
    DistinctPrimes(p, q);
    PrimeCoprime(q, p);
    u := ModInverse(p, q);
    assert u * p == p * u;
    n := p * q;
  }

  /** The search for the public exponent. */
  method FindExponent(phi: nat, ebits: nat) returns (e: nat)
    requires phi > 0 && phi % 2 == 0 && ebits >= 1
    ensures LeastExponent(e, ebits, phi)
  {
    ghost var limit := SearchEnds(phi, ebits);
    EvenPower(ebits);
    hide Pow, Gcd, LeastExponent, NoneBelow;
    e := Pow(2, ebits);
    ghost var half := e / 2;
    assert e == 2 * half;
    NoneBelowFirst(ebits, phi);
    e := e - 1;
    e := e + 2;
    var aux := Gcd(e, phi);
    while aux != 1
      invariant e == 2 * half + 1 && half <= limit && Pow(2, ebits) < e && aux == Gcd(e, phi)
      invariant NoneBelow(e, ebits, phi)
      decreases limit - half
    {
      assert half != limit;
      NoneBelowNext(e, half, ebits, phi);
      e := e + 2;
      half := half + 1;
      aux := Gcd(e, phi);
    }
    LeastFound(e, half, ebits, phi);
  }

  lemma NoneBelowFirst(ebits: nat, phi: nat)
    requires Pow(2, ebits) > 0
    ensures NoneBelow(Pow(2, ebits) + 1, ebits, phi)
  {
    hide Pow, Gcd;
  }

  lemma LeastFound(e: nat, half: nat, ebits: nat, phi: nat)
    requires e == 2 * half + 1 && Pow(2, ebits) < e && Gcd(e, phi) == 1 && NoneBelow(e, ebits, phi)
    ensures LeastExponent(e, ebits, phi)
  {
    hide Pow, Gcd;
  }

  /** No odd number between 2^ebits and e is coprime to phi. */
  ghost predicate NoneBelow(e: nat, ebits: nat, phi: nat) {
    forall x: nat :: Pow(2, ebits) < x < e && x % 2 == 1 ==> Gcd(x, phi) != 1
  }

  lemma NoneBelowNext(e: nat, half: nat, ebits: nat, phi: nat)
    requires NoneBelow(e, ebits, phi) && e == 2 * half + 1 && Gcd(e, phi) != 1
    ensures NoneBelow(e + 2, ebits, phi)
  {
    hide Pow, Gcd;
    assert (e + 1) % 2 == 0;
  }

  lemma EvenPower(n: nat)
    requires n >= 1
    ensures Pow(2, n) > 0 && Pow(2, n) % 2 == 0
  {
    PowPositive(2, n);
    assert Pow(2, n) == 2 * Pow(2, n - 1);
  }

  lemma OddPrime(p: nat)
    requires Prime(p) && p > 2
    ensures p % 2 == 1
  {
    if p % 2 == 0 { DividesMod(2, p); }
  }

  /** Some odd number above 2^ebits is 1 modulo phi, so the search ends. */
  lemma SearchEnds(phi: nat, ebits: nat) returns (limit: nat)
    requires phi > 0 && phi % 2 == 0 && ebits >= 1
    ensures Pow(2, ebits) <= 2 * limit && Gcd(2 * limit + 1, phi) == 1
  {
    var k := Pow(2, ebits);
    PowPositive(2, ebits);
    hide Pow;
    limit := NextIsCoprime(k, phi);
  }

  lemma NextIsCoprime(k: int, phi: int) returns (limit: nat)
    requires k > 0 && phi > 0 && phi % 2 == 0
    ensures k <= 2 * limit && Gcd(2 * limit + 1, phi) == 1
  {
    hide Gcd;
    limit := k * (phi / 2);
    assert phi == 2 * (phi / 2);
    HalfMultiple(k, phi / 2, phi);
    CoprimeBy(2 * limit + 1, phi, 1, -k);
  }

  lemma HalfMultiple(k: int, h: int, phi: int)
    requires k > 0 && h > 0 && phi == 2 * h
    ensures 0 <= k <= 2 * (k * h) && (2 * (k * h) + 1) * 1 + phi * (-k) == 1
  {
    MulLe(1, h, k);
    MulAssoc(2, h, -k);
    assert h * (-k) == -(k * h);
  }

  /** An even exponent is never coprime to phi, which is even. */
  lemma EvenExponentNeverFits(p: nat, q: nat, e: nat)
    requires Prime(p) && Prime(q) && 2 < p < q && e % 2 == 0
    ensures Gcd(e, (p - 1) * (q - 1)) != 1
  {
    OddPrime(p);
    var phi := (p - 1) * (q - 1);
    var h := (p - 1) / 2;
    MulAssoc(2, h, q - 1);
    DividesBy(2, phi, h * (q - 1));
    DividesMod(2, e);
    var x, y := Bezout(e, phi);
    DividesCombine(2, e, phi, x, y);
    DividesMod(2, Gcd(e, phi));
  }

  /** Facts about the least common multiple a * b / gcd. */
  lemma LcmFacts(a: nat, b: nat)
    requires a >= 2 && b >= a && a % 2 == 0
    ensures var g := Gcd(a, b);
            && g > 0 && (a * b) > 0 && (a * b) % 2 == 0
            && (a * b) / g >= 2 && (a * b) / g <= a * b
            && Divides(a, (a * b) / g) && Divides(b, (a * b) / g) && Divides((a * b) / g, a * b)
  {
    var g := Gcd(a, b);
    GcdPositive(a, b);
    GcdDivides(a, b);
    var k: int :| a == g * k;
    var j: int :| b == g * j;
    MulLe(1, b, a);
    // a * b = g * (a * j) = g * (b * k)
    LcmAlgebra(a, b, g, k, j);
    QuotientUnique(a * b, g, a * j, 0);
    DividesBy(a, a * j, j);
    DividesBy(b, a * j, k);
    DividesBy(a * j, a * b, g);
    if j <= 0 { MulLe(j, 0, g); }
    MulLe(1, j, a);
    MulLe(1, g, a * j);
    assert a == 2 * (a / 2);
    MulAssoc(2, a / 2, b);
  }

  lemma LcmAlgebra(a: int, b: int, g: int, k: int, j: int)
    requires a == g * k && b == g * j
    ensures a * b == g * (a * j) == (a * j) * g && a * j == b * k
  {
    MulAssoc(a, g, j);
    MulAssoc(g, a, j);
    assert a * g == g * a;
    MulAssoc(g, k, j);
    MulAssoc(g, j, k);
    assert k * j == j * k;
  }

  lemma CoprimeToFactor(e: nat, phi: nat, f: nat)
    requires Gcd(e, phi) == 1 && Divides(f, phi)
    ensures Gcd(f, e) == 1
  {
    var x, y := Bezout(e, phi);
    var k: int :| phi == f * k;
    MulAssoc(f, k, y);
    CoprimeBy(f, e, k * y, x);
  }

  /** 1 modulo a common multiple is 1 modulo both factors. */
  lemma LcmInverse(a: nat, b: nat, f: nat, x: nat)
    requires a >= 2 && b >= 2 && f > 1 && Divides(a, f) && Divides(b, f) && x % f == 1
    ensures x % a == 1 && x % b == 1
  {
    OneModFactor(a, f, x);
    OneModFactor(b, f, x);
  }

  lemma OneModFactor(a: nat, f: nat, x: nat)
    requires a >= 2 && f > 1 && Divides(a, f) && x % f == 1
    ensures x % a == 1
  {
    var k: int :| f == a * k;
    var j := x / f;
    assert x == f * j + 1;
    MulAssoc(a, k, j);
    QuotientUnique(x, a, k * j, 1);
  }

  // ---------- the private operation ----------

  /** The factors and the coefficient of the Chinese remainder theorem are in order. */
  ghost predicate ValidFactors(prv: PrivateKey) {
    && Prime(prv.p) && Prime(prv.q) && prv.p != prv.q && prv.n == prv.p * prv.q
    && (prv.u * prv.p) % prv.q == 1
  }

  /** The case the reduced exponent gets wrong: 0^0 is 1, but 0^d is 0. */
  predicate ReducedWrongly(input: nat, d: nat, p: nat)
    requires p > 1
  {
    input % p == 0 && d > 0 && d % (p - 1) == 0
  }

  /** rsa_private.  The result is the number below n with the two remainders computed
      from the reduced exponents; it is input^d mod n exactly unless the input is
      divisible by a prime whose reduced exponent is 0. */
  method RsaPrivate(input: nat, prv: PrivateKey) returns (output: nat)
    requires ValidFactors(prv)
    ensures 0 <= output < prv.n
    ensures output % prv.p == Pow(input % prv.p, prv.d % (prv.p - 1)) % prv.p
    ensures output % prv.q == Pow(input % prv.q, prv.d % (prv.q - 1)) % prv.q
    ensures prv.n > 0
    ensures output == Pow(input, prv.d) % prv.n <==>
            !ReducedWrongly(input, prv.d, prv.p) && !ReducedWrongly(input, prv.d, prv.q)
  {
    var dp := prv.p - 1;
    dp := prv.d % dp;
    var dq := prv.q - 1;
    dq := prv.d % dq;
    var p2 := input % prv.p;
    p2 := Pow(p2, dp) % prv.p;
    var q2 := input % prv.q;
    q2 := Pow(q2, dq) % prv.q;
    var k := q2 - p2;
    k := k * prv.u;
    k := k % prv.q;
    output := prv.p * k;
    output := output + p2;

    hide Pow, ReducedWrongly;
    Recombine(prv.p, prv.q, prv.u, p2, q2, k, output);
    ReducedPower(prv.p, input, prv.d);
    ReducedPower(prv.q, input, prv.d);
    Characterised(prv.p, prv.q, output, Pow(input, prv.d));
  }

  /** With p = 3, q = 5 and d = 2 the input 3 is such a case: its power 9 is a multiple of 3, but
      the reduced exponent makes the remainder 1. */
  lemma ReducedExponentZero()
    ensures var prv := PrivateKey(4, 15, 1, 2, 2, 3, 5);
            && ValidFactors(prv) && ReducedWrongly(3, prv.d, prv.p)
            && Pow(3 % prv.p, prv.d % (prv.p - 1)) % prv.p == 1
            && (Pow(3, prv.d) % prv.n) % prv.p == 0
  {
    if Divides(2, 3) { DividesMod(2, 3); }
    forall d: int | 1 < d < 5 ensures !Divides(d, 5) {
      if Divides(d, 5) { DividesMod(d, 5); }
    }
    assert Pow(0, 0) == 1;
    assert Pow(3, 2) == 9 by { assert Pow(3, 1) == 3; }
  }

  /** rsa_private fails for such a key and input. */
  method WrongPower() returns (output: nat)
    ensures output != Pow(3, 2) % 15
  {
    ReducedExponentZero();
    output := RsaPrivate(3, PrivateKey(4, 15, 1, 2, 2, 3, 5));
  }

  /** Garner's recombination has the two given remainders and lies below p * q. */
  lemma Recombine(p: nat, q: nat, u: nat, p2: nat, q2: nat, k: nat, output: nat)
    requires p > 1 && q > 1 && (u * p) % q == 1 && p2 < p && q2 < q
    requires k == ((q2 - p2) * u) % q && output == p * k + p2
    ensures output < p * q && output % p == p2 && output % q == q2
  {
    QuotientUnique(output, p, k, p2);
    MulLe(k, q - 1, p);
    MulDistribute(p, q, -1);
    // p * k is q2 - p2 modulo q
    var t := (q2 - p2) * u;
    CongMod(t, q);
    CongSym(t, k, q);
    CongBy(p, p, q, 0);
    CongMul(p, p, k, t, q);
    CongMod(u * p, q);
    CongBy(q2 - p2, q2 - p2, q, 0);
    CongMul(q2 - p2, q2 - p2, u * p, 1, q);
    assert p * t == (q2 - p2) * (u * p) by {
      MulAssoc(q2 - p2, u, p);
      assert p * t == t * p;
    }
    CongTrans(p * k, p * t, q2 - p2, q);
    CongBy(p2, p2, q, 0);
    CongAdd(p * k, q2 - p2, p2, p2, q);
    CongSame(output, q2, q);
    QuotientUnique(q2, q, 0, q2);
  }

  /** Reducing base and exponent keeps the power modulo p, unless 0 gets exponent 0. */
  lemma ReducedPower(p: nat, input: nat, d: nat)
    requires Prime(p)
    ensures Pow(input % p, d % (p - 1)) % p == Pow(input, d) % p <==> !ReducedWrongly(input, d, p)
  {
    var dp, m := d % (p - 1), input % p;
    CongMod(input, p);
    CongPow(input, m, d, p);
    CongSame(Pow(input, d), Pow(m, d), p);
    hide Pow, Cong;
    if m == 0 {
      ZeroPowers(p, d, dp);
    } else {
      NonzeroPower(p, m, d);
    }
  }

  /** Zero raised to a power is zero but for the exponent zero. */
  lemma ZeroPowers(p: nat, d: nat, dp: nat)
    requires p > 1
    ensures Pow(0, dp) % p == (if dp > 0 then 0 else 1) && Pow(0, d) % p == (if d > 0 then 0 else 1)
  {
    QuotientUnique(0, p, 0, 0);
    QuotientUnique(1, p, 0, 1);
    if d > 0 { PowZero(d); }
    if dp > 0 { PowZero(dp); }
  }

  lemma NonzeroPower(p: nat, m: nat, d: nat)
    requires Prime(p) && 0 < m < p
    ensures Pow(m, d % (p - 1)) % p == Pow(m, d) % p
  {
    hide Pow, Cong;
    var dp := d % (p - 1);
    if Divides(p, m) { DividesLe(p, m); }
    assert d == dp + (p - 1) * (d / (p - 1));
    FermatExponent(p, m, dp, d / (p - 1));
    CongSame(Pow(m, d), Pow(m, dp), p);
  }

  /** A value below p * q equals x mod p * q exactly when both remainders agree. */
  lemma Characterised(p: nat, q: nat, v: nat, x: int)
    requires Prime(p) && Prime(q) && p != q && v < p * q
    ensures v == x % (p * q) <==> v % p == x % p && v % q == x % q
  {
    CongMod(x, p * q);
    CongFactor(x, x % (p * q), p, q);
    CongSame(x, x % (p * q), p);
    CongSame(x, x % (p * q), q);
    if v % p == x % p && v % q == x % q {
      CongFromMod(v, x, p);
      CongFromMod(v, x, q);
      ChineseUnique(p, q, v, x);
      CongSame(v, x, p * q);
      QuotientUnique(v, p * q, 0, v);
    }
  }

  /** rsa_public. */
  method RsaPublic(input: nat, pub: PublicKey) returns (output: nat)
    requires pub.n > 0
    ensures output == Pow(input, pub.e) % pub.n
    ensures output < pub.n
  {
    output := Pow(input, pub.e) % pub.n;
  }

  // ---------- the operations are inverse ----------

  /** The two halves of one key as derive_rsa_keys makes them. */
  ghost predicate KeyPair(pub: PublicKey, prv: PrivateKey) {
    && ValidFactors(prv) && prv.p > 2 && prv.q > 2
    && ExponentsMatch(prv.p, prv.q, prv.e, prv.d)
    && pub.n == prv.n && pub.e == prv.e && pub.bits == prv.bits
  }

  /** m^(e*d) is m modulo each prime, for every m, a multiple of the prime included. */
  lemma PowerUndone(p: nat, m: nat, x: nat)
    requires Prime(p) && p > 2 && x % (p - 1) == 1
    ensures Cong(Pow(m, x), m, p)
  {
    assert x == (p - 1) * (x / (p - 1)) + 1;
    if Divides(p, m) {
      var k: int :| m == p * k;
      CongBy(m, 0, p, k);
      CongPow(m, 0, x, p);
      PowZero(x);
      CongSym(m, 0, p);
      CongTrans(Pow(m, x), 0, m, p);
    } else {
      FermatExponent(p, m, 1, x / (p - 1));
      assert Pow(m, 1) == m * Pow(m, 0);
    }
  }

  /** Raising to e and then to d, or to d and then to e, gives back every m below n. */
  lemma ExponentsInverse(p: nat, q: nat, e: nat, d: nat, m: nat)
    requires Prime(p) && Prime(q) && p != q && p > 2 && q > 2 && ExponentsMatch(p, q, e, d)
    requires m < p * q
    ensures Pow(Pow(m, e) % (p * q), d) % (p * q) == m
    ensures Pow(Pow(m, d) % (p * q), e) % (p * q) == m
  {
    PowerUndone(p, m, e * d);
    PowerUndone(q, m, e * d);
    ChineseUnique(p, q, Pow(m, e * d), m);
    UndoneByPower(p * q, e, d, m);
    assert d * e == e * d;
    UndoneByPower(p * q, d, e, m);
  }

  lemma UndoneByPower(n: nat, e: nat, d: nat, m: nat)
    requires n > 0 && m < n && Cong(Pow(m, e * d), m, n)
    ensures Pow(Pow(m, e) % n, d) % n == m
  {
    var c := Pow(m, e);
    CongMod(c, n);
    CongSym(c, c % n, n);
    CongPow(c % n, c, d, n);
    PowMul(m, e, d);
    CongTrans(Pow(c % n, d), Pow(c, d), m, n);
    CongSame(Pow(c % n, d), m, n);
    QuotientUnique(m, n, 0, m);
  }

  /** The reduced exponents of a derived key are not 0. */
  lemma DerivedReducesRightly(p: nat, e: nat, d: nat, input: nat)
    requires p > 2 && (e * d) % (p - 1) == 1
    ensures !ReducedWrongly(input, d, p)
  {
    if d % (p - 1) == 0 {
      var j := d / (p - 1);
      assert d == (p - 1) * j;
      MulAssoc(p - 1, j, e);
      assert e * d == d * e;
      QuotientUnique(e * d, p - 1, j * e, 0);
    }
  }

  /** The self-test of rsa_generate_key: both orders of the two operations return the
      test value, for every value below n. */
  method KeyWorks(test: nat, pub: PublicKey, prv: PrivateKey) returns (a: nat, b: nat)
    requires KeyPair(pub, prv) && test < prv.n
    ensures a == test && b == test
  {
    DerivedReducesRightly(prv.p, prv.e, prv.d, test);
    DerivedReducesRightly(prv.q, prv.e, prv.d, test);
    ExponentsInverse(prv.p, prv.q, prv.e, prv.d, test);
    a := RsaPrivate(test, prv);
    a := RsaPublic(a, pub);
    b := RsaPublic(test, pub);
    DerivedReducesRightly(prv.p, prv.e, prv.d, b);
    DerivedReducesRightly(prv.q, prv.e, prv.d, b);
    b := RsaPrivate(b, prv);
  }
}
