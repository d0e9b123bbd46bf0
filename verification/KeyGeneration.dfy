/**
 rsa_generate_key (rsa.c): the two primes, the checks between them, the derived key and its
 self-test.  Every key that comes out is one for which padded decryption inverts encryption.
 */
module KeyGeneration {
  import opened Numbers
  import opened Options
  import opened Rsa
  import opened PrimeSearch
  import RsaPadding

  /** The low bits of the public exponent that are skipped. */
  const EBITS := 5

  datatype Key = Key(pub: PublicKey, prv: PrivateKey)

  /** What the tests for a prime let pass is a prime. */
  ghost predicate Sound(probable: nat -> bool) {
    forall x: nat :: probable(x) ==> Prime(x)
  }

  /** A prime of so many bits with the two top bits set. */
  ghost predicate TopPrime(p: nat, bits: nat)
    requires bits >= 2
  {
    Prime(p) && 3 * Pow(2, bits - 2) <= p < Pow(2, bits)
  }

  lemma GivenIsTopPrime(octets: seq<nat>, bits: nat, table: seq<nat>, probable: nat -> bool, p: nat)
    requires bits >= 2 && ProperTable(table) && Sound(probable) && Gives(octets, bits, table, probable, p)
    ensures TopPrime(p, bits)
  {
    hide Start, Prime, HasDivisor, NoneAccepted, Pow;
    StartShape(octets, bits);
  }

  /** A prime of the larger length is never the smaller one, so a swap keeps both lengths. */
  lemma SwapKeepsLengths(p: nat, q: nat, pbits: nat, qbits: nat)
    requires 2 <= pbits <= qbits <= pbits + 1 && TopPrime(p, pbits) && TopPrime(q, qbits) && p >= q
    ensures pbits == qbits
  {
    var w := Pow(2, pbits - 2);
    assert Pow(2, pbits) == 2 * Pow(2, pbits - 1) && Pow(2, pbits - 1) == 2 * w;
  }

  lemma TopPrimeIsOdd(p: nat, bits: nat)
    requires bits >= 2 && TopPrime(p, bits)
    ensures p > 2
  {
    PowPositive(2, bits - 2);
  }

  /** The modulus is exactly as long as asked for. */
  lemma ModulusLength(p: nat, q: nat, pbits: nat, qbits: nat)
    requires pbits >= 2 && qbits >= 2 && TopPrime(p, pbits) && TopPrime(q, qbits)
    ensures Pow(2, pbits + qbits - 1) <= p * q < Pow(2, pbits + qbits)
  {
    hide Prime, Pow;
    RsaPadding.ModulusLarge(p, q, pbits, qbits);
    PowAdd(2, pbits, qbits);
    PowPositive(2, pbits);
    MulLe(p + 1, Pow(2, pbits), q);
    MulLe(q + 1, Pow(2, qbits), Pow(2, pbits));
    MulDistribute(q, p, 1);
    MulDistribute(Pow(2, pbits), q, 1);
    assert q * Pow(2, pbits) == Pow(2, pbits) * q;
  }

  /** The smallest exponent is above 2^5. */
  lemma ExponentLarge(e: nat, phi: nat)
    requires LeastExponent(e, EBITS, phi)
    ensures e > 32
  {
    assert Pow(2, 5) == 32 by { assert Pow(2, 3) == 8 by { assert Pow(2, 1) == 2; } }
  }

  /** Whether the primes keep enough distance. */
  predicate TooClose(p: nat, q: nat) { q - p < q / 1024 }

  /** What a generated key promises. */
  ghost predicate Generated(key: Key, bits: nat)
    requires bits > 0
  {
    && KeyPair(key.pub, key.prv) && key.pub.bits == bits
    && 2 < key.prv.p < key.prv.q && !TooClose(key.prv.p, key.prv.q)
    && Pow(2, bits - 1) <= key.prv.n < Pow(2, bits)
    && LeastExponent(key.prv.e, EBITS, (key.prv.p - 1) * (key.prv.q - 1)) && key.prv.e >= 3
    && 0 < key.prv.d < (key.prv.p - 1) * (key.prv.q - 1)
  }

  /** The key from two primes that passed the checks. */
  method DerivedKey(p: nat, q: nat, pbits: nat, qbits: nat) returns (key: Key)
    requires 2 <= pbits && 2 <= qbits && TopPrime(p, pbits) && TopPrime(q, qbits)
    requires p < q && !TooClose(p, q)
    ensures Generated(key, pbits + qbits)
  {
    hide Pow, Prime, LeastExponent;
    TopPrimeIsOdd(p, pbits);
    TopPrimeIsOdd(q, qbits);
    ModulusLength(p, q, pbits, qbits);
    var n, e, d, u := DeriveKeys(p, q, EBITS);
    ExponentLarge(e, (p - 1) * (q - 1));
    var bits := pbits + qbits;
    key := Key(PublicKey(bits, n, e), PrivateKey(bits, n, e, d, u, p, q));
  }

  /**
   The second prime: drawn again while it equals the first or lies too close to it, with the
   smaller one kept in p.  Two primes are always coprime, so that check never sends it back.
   */
  method SecondPrime(first: nat, draws: seq<seq<nat>>, pbits: nat, qbits: nat, table: seq<nat>, probable: nat -> bool)
    returns (pair: Option<(nat, nat)>, rest: seq<seq<nat>>)
    requires 2 <= pbits <= qbits <= pbits + 1 && ProperTable(table) && Sound(probable) && TopPrime(first, pbits)
    ensures pair.Some? ==> var (p, q) := pair.value;
                           p < q && !TooClose(p, q) && TopPrime(p, pbits) && TopPrime(q, qbits)
    ensures |rest| <= |draws| && (pair.None? ==> rest == [])
  {
    hide TopPrime, Sound, Gives, Fails, Gcd;
    var p := first;
    rest := draws;
    while true
      invariant TopPrime(p, pbits) && |rest| <= |draws|
      decreases |rest|
    {
      var r, used := RandomPrime(rest, qbits, table, probable);
      if r.None? {
        return None, [];
      }
      var q := r.value;
      GivenIsTopPrime(rest[used - 1], qbits, table, probable, q);
      rest := rest[used..];
      if p != q {
        if p > q {
          SwapKeepsLengths(p, q, pbits, qbits);
          p, q := q, p;
        }
        if !TooClose(p, q) {
          CoprimePrimes(p, q, pbits, qbits);
          if Gcd(p, q) == 1 {
            return Some((p, q)), rest;
          }
        }
      }
    }
  }

  lemma CoprimePrimes(p: nat, q: nat, pbits: nat, qbits: nat)
    requires pbits >= 2 && qbits >= 2 && TopPrime(p, pbits) && TopPrime(q, qbits) && p < q
    ensures Gcd(p, q) == 1
  {
    DistinctPrimes(p, q);
    PrimeCoprime(p, q);
  }

  /** rsa_generate_key; no key comes out only when the random source runs dry. */
  method GenerateKey(draws: seq<seq<nat>>, bits: nat, table: seq<nat>, probable: nat -> bool)
    returns (key: Option<Key>, rest: seq<seq<nat>>)
    requires bits >= 4 && ProperTable(table) && Sound(probable)
    ensures key.Some? ==> Generated(key.value, bits)
    ensures key.Some? ==>
              var k := key.value.prv; k.q - k.p >= k.q / 1024 && LeastExponent(k.e, 5, (k.p - 1) * (k.q - 1))
    ensures key.None? ==> rest == []
  {
    hide Generated, TopPrime, Sound, Gives, Fails;
    var pbits := bits / 2;
    var qbits := bits - pbits;
    var first, used := RandomPrime(draws, pbits, table, probable);
    if first.None? {
      return None, [];
    }
    GivenIsTopPrime(draws[used - 1], pbits, table, probable, first.value);
    var pair;
    pair, rest := SecondPrime(first.value, draws[used..], pbits, qbits, table, probable);
    if pair.None? || |rest| == 0 {
      return None, [];
    }
    var made := DerivedKey(pair.value.0, pair.value.1, pbits, qbits);
    assert made.prv.n > 0 && KeyPair(made.pub, made.prv) by { GeneratedIsKeyPair(made, bits); }
    GeneratedNumbers(made, bits);
    var test := RandomInteger(rest[0], bits) % made.pub.n;
    var a, b := KeyWorks(test, made.pub, made.prv);
    if a != test || b != test {
      assert false;
    }
    return Some(made), rest[1..];
  }

  lemma GeneratedIsKeyPair(key: Key, bits: nat)
    requires bits > 0 && Generated(key, bits)
    ensures KeyPair(key.pub, key.prv) && key.prv.n > 0
  {
    PowPositive(2, bits - 1);
  }

  lemma GeneratedNumbers(key: Key, bits: nat)
    requires bits > 0 && Generated(key, bits)
    ensures var k := key.prv; k.q - k.p >= k.q / 1024 && LeastExponent(k.e, 5, (k.p - 1) * (k.q - 1))
  {
  }

  /** A generated key of 9 bits or more carries every message that fits through its padding. */
  method Carries(key: Key, bits: nat, input: nat, pad: seq<nat>) returns (r: RsaPadding.Result)
    requires bits >= 9 && Generated(key, bits)
    requires (bits + 7) / 8 >= RsaPadding.ByteLength(input) + 3
    requires |pad| == (bits + 7) / 8 - RsaPadding.ByteLength(input) - 3 && RsaPadding.NonzeroDigits(pad)
    ensures r == RsaPadding.Success(input)
  {
    hide Pow;
    r := RsaPadding.RoundTrip(input, key.pub, key.prv, pad);
  }
}
