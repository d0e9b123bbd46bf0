/**
 The search for a random prime and the key generation built on it (rsa.c).  A draw stands
 for the octets of one call of rsa_random_integer; `probable` for mpz_probab_prime_p.
 */
module PrimeSearch {
  import opened Numbers
  import opened Options
  import opened Rsa
  import opened RsaPadding

  /** The search starts again from another draw beyond this distance. */
  const LIMIT := 0x70000000

  // ---------- the starting point ----------

  /** mpz_ior */
  function Or(a: nat, b: nat): nat
    decreases a + b
  {
    if a == 0 && b == 0 then 0
    else 2 * Or(a / 2, b / 2) + if a % 2 == 1 || b % 2 == 1 then 1 else 0
  }

  /** rsa_random_integer */
  function RandomInteger(octets: seq<nat>, bits: nat): (v: nat)
    ensures v < Pow(2, bits)
  {
    PowPositive(2, bits);
    FromDigits(octets) % Pow(2, bits)
  }

  /** The random integer with its two top bits and its lowest bit set. */
  function Start(octets: seq<nat>, bits: nat): nat
    requires bits >= 2
  {
    PowPositive(2, bits - 2);
    Or(Or(RandomInteger(octets, bits), 3 * Pow(2, bits - 2)), 1)
  }

  lemma {:induction false} OrZero(a: nat)
    ensures Or(a, 0) == a
  {
    if a > 0 { OrZero(a / 2); }
  }

  /** A binary digit put in front of an even number. */
  lemma OrStep(a: nat, b: nat)
    ensures Or(a, 2 * b) == 2 * Or(a / 2, b) + a % 2
  {
    assert (2 * b) / 2 == b && (2 * b) % 2 == 0;
    if a == 0 && b == 0 { assert Or(0, 0) == 0; }
  }

  lemma {:induction false} OrTopBits(r: nat, k: nat)
    requires r < 4 * Pow(2, k)
    ensures Pow(2, k) > 0 && Or(r, 3 * Pow(2, k)) == 3 * Pow(2, k) + r % Pow(2, k)
    decreases k
  {
    PowPositive(2, k);
    if k == 0 {
      OrBelowFour(r);
    } else {
      var w := Pow(2, k - 1);
      PowPositive(2, k - 1);
      assert Pow(2, k) == 2 * w;
      OrTopBits(r / 2, k - 1);
      OrStep(r, 3 * w);
      hide Or, Pow;
      assert 2 * (3 * w) == 3 * (2 * w);
      HalfRemainder(r, w);
    }
  }

  lemma OrBelowFour(r: nat)
    requires r < 4
    ensures Or(r, 3) == 3
  {
    OrStep(0, 0);
    assert r / 2 / 2 == 0;
    assert Or(r / 2, 1) == 2 * Or(r / 2 / 2, 0) + 1 == 1;
    assert Or(r, 3) == 2 * Or(r / 2, 1) + 1;
  }

  /** The starting point is odd, as long as asked for, and in its top quarter. */
  lemma StartShape(octets: seq<nat>, bits: nat)
    requires bits >= 2
    ensures Start(octets, bits) % 2 == 1
    ensures 3 * Pow(2, bits - 2) <= Start(octets, bits) < Pow(2, bits) == 4 * Pow(2, bits - 2)
  {
    hide Or, RandomInteger;
    var r, w := RandomInteger(octets, bits), Pow(2, bits - 2);
    assert Pow(2, bits) == 2 * Pow(2, bits - 1) && Pow(2, bits - 1) == 2 * w;
    PowPositive(2, bits - 2);
    hide Pow;
    OrTopBits(r, bits - 2);
    var s := Or(r, 3 * w);
    OrLowBit(s);
    assert s < 4 * w;
  }

  /** Between the two top bits and the lowest one stand the bits of the random octets. */
  lemma StartIs(octets: seq<nat>, bits: nat)
    requires bits >= 2
    ensures var w := Pow(2, bits - 2);
            w > 0 && Start(octets, bits) == 2 * ((3 * w + FromDigits(octets) % w) / 2) + 1
  {
    hide Or, FromDigits;
    var r, w := RandomInteger(octets, bits), Pow(2, bits - 2);
    PowPositive(2, bits - 2);
    assert Pow(2, bits) == 2 * Pow(2, bits - 1) && Pow(2, bits - 1) == 2 * w;
    hide Pow;
    OrTopBits(r, bits - 2);
    OrLowBit(3 * w + r % w);
    RemainderTwice(FromDigits(octets), w);
  }

  lemma RemainderTwice(v: nat, w: nat)
    requires w > 0
    ensures v % (4 * w) % w == v % w
  {
    var q := v / (4 * w);
    assert v == v % (4 * w) + w * (4 * q);
    ModShift(v % (4 * w), w, 4 * q);
  }

  lemma OrLowBit(s: nat)
    ensures Or(s, 1) == 2 * (s / 2) + 1
  {
    OrZero(s / 2);
  }

  // ---------- what the search looks for ----------

  ghost predicate HasDivisor(table: seq<nat>, c: nat)
    requires ProperTable(table)
  {
    exists i :: 0 <= i < |table| && c % table[i] == 0
  }

  /** The entries before the terminating zero: numbers of at most 15 bits. */
  predicate ProperTable(table: seq<nat>) {
    forall i :: 0 <= i < |table| ==> 1 < table[i] < 0x8000
  }

  /** The table is not used for very small numbers. */
  function Used(table: seq<nat>, bits: nat): (t: seq<nat>)
    ensures ProperTable(table) ==> ProperTable(t)
  {
    if bits < 16 then [] else table
  }

  /** No table divisor, a Fermat test for witness 2, and the further tests. */
  ghost predicate Accepted(table: seq<nat>, probable: nat -> bool, c: nat)
    requires ProperTable(table)
  {
    c > 0 && !HasDivisor(table, c) && Pow(2, c) % c == 2 && probable(c)
  }

  ghost predicate NoneAccepted(table: seq<nat>, probable: nat -> bool, from: nat, to: nat)
    requires ProperTable(table)
  {
    forall c: nat :: from <= c < to && c % 2 == 1 ==> !Accepted(table, probable, c)
  }

  /** c is the first accepted odd number from the starting point on, near and short enough. */
  ghost predicate Gives(octets: seq<nat>, bits: nat, table: seq<nat>, probable: nat -> bool, c: nat)
    requires bits >= 2 && ProperTable(table)
  {
    var start := Start(octets, bits);
    && start <= c <= start + LIMIT && c < Pow(2, bits) && c % 2 == 1
    && Accepted(Used(table, bits), probable, c)
    && NoneAccepted(Used(table, bits), probable, start, c)
  }

  ghost predicate Fails(octets: seq<nat>, bits: nat, table: seq<nat>, probable: nat -> bool)
    requires bits >= 2 && ProperTable(table)
  {
    forall c: nat :: !Gives(octets, bits, table, probable, c)
  }

  // ---------- the moduli ----------

  /** A counter that is the starting point modulo t, never below -difference. */
  ghost predicate Tracked(m: int, t: nat, start: nat, difference: nat)
    requires t > 0
  {
    0 <= m + difference && m < t && Cong(m, start, t)
  }

  ghost predicate Tracks(moduli: array<int>, table: seq<nat>, start: nat, difference: nat)
    requires ProperTable(table)
    reads moduli
  {
    && |table| <= moduli.Length
    && forall i :: 0 <= i < |table| ==> Tracked(moduli[i], table[i], start, difference)
  }

  /** A counter brought below t is the remainder of the candidate. */
  lemma TrackedRemainder(m: int, t: nat, start: nat, difference: nat)
    requires t > 0 && Tracked(m, t, start, difference) && m + difference < t
    ensures (start + difference) % t == m + difference
  {
    CongBy(difference, difference, t, 0);
    CongAdd(m, start, difference, difference, t);
    CongSame(m + difference, start + difference, t);
    QuotientUnique(m + difference, t, 0, m + difference);
  }

  lemma TrackedLess(m: int, t: nat, start: nat, difference: nat)
    requires t > 0 && Tracked(m, t, start, difference) && m + difference >= t
    ensures Tracked(m - t, t, start, difference)
  {
    CongBy(m - t, m, t, -1);
    CongTrans(m - t, m, start, t);
  }

  /** The inner loop: the counter goes down by t until its sum with the difference is below t. */
  method Reduce(moduli: array<int>, i: nat, t: nat, difference: nat, ghost start: nat)
    requires i < moduli.Length && t > 1 && Tracked(moduli[i], t, start, difference)
    modifies moduli
    ensures Tracked(moduli[i], t, start, difference)
    ensures (start + difference) % t == moduli[i] + difference < t
    ensures forall j :: 0 <= j < moduli.Length && j != i ==> moduli[j] == old(moduli[j])
  {
    while moduli[i] + difference >= t
      invariant Tracked(moduli[i], t, start, difference)
      invariant forall j :: 0 <= j < moduli.Length && j != i ==> moduli[j] == old(moduli[j])
      decreases moduli[i] + difference
    {
      TrackedLess(moduli[i], t, start, difference);
      moduli[i] := moduli[i] - t;
    }
    TrackedRemainder(moduli[i], t, start, difference);
  }

  /** One pass over the table; the counters after the divisor found are left behind. */
  method Sieve(moduli: array<int>, table: seq<nat>, difference: nat, ghost start: nat) returns (multiple: bool)
    requires ProperTable(table) && Tracks(moduli, table, start, difference)
    modifies moduli
    ensures Tracks(moduli, table, start, difference)
    ensures multiple <==> HasDivisor(table, start + difference)
  {
    hide Tracked;
    var i := 0;
    while i < |table|
      invariant 0 <= i <= |table| && Tracks(moduli, table, start, difference)
      invariant forall j :: 0 <= j < i ==> (start + difference) % table[j] != 0
    {
      Reduce(moduli, i, table[i], difference, start);
      if moduli[i] + difference == 0 {
        return true;
      }
      i := i + 1;
    }
    multiple := false;
  }

  /** The counters at the starting point. */
  method InitModuli(start: nat, table: seq<nat>) returns (moduli: array<int>)
    requires ProperTable(table)
    ensures fresh(moduli) && Tracks(moduli, table, start, 0)
  {
    moduli := new int[|table|];
    var n := 0;
    while n < |table|
      invariant 0 <= n <= |table|
      invariant forall i :: 0 <= i < n ==> Tracked(moduli[i], table[i], start, 0)
    {
      moduli[n] := start % table[n];
      CongMod(start, table[n]);
      CongSym(start, start % table[n], table[n]);
      n := n + 1;
    }
  }

  lemma TracksFurther(moduli: array<int>, table: seq<nat>, start: nat, difference: nat)
    requires ProperTable(table) && Tracks(moduli, table, start, difference)
    ensures Tracks(moduli, table, start, difference + 2)
  {
  }

  // ---------- the search ----------

  /** The loop over the differences: the first accepted number, if it is near enough. */
  method FirstAccepted(start: nat, table: seq<nat>, probable: nat -> bool) returns (r: Option<nat>)
    requires ProperTable(table) && start % 2 == 1
    ensures r.Some? ==> start <= r.value <= start + LIMIT && r.value % 2 == 1
    ensures r.Some? ==> Accepted(table, probable, r.value) && NoneAccepted(table, probable, start, r.value)
    ensures r.None? ==> NoneAccepted(table, probable, start, start + LIMIT + 1)
  {
    hide Tracks, Accepted, HasDivisor, Pow;
    var moduli := InitModuli(start, table);
    var difference := 0;
    ghost var half := 0;
    while difference <= LIMIT
      invariant difference == 2 * half && difference <= LIMIT + 2
      invariant Tracks(moduli, table, start, difference)
      invariant NoneAccepted(table, probable, start, start + difference)
      decreases LIMIT + 2 - difference
    {
      var multiple := Sieve(moduli, table, difference, start);
      if !multiple {
        var candidate := start + difference;
        if Pow(2, candidate) % candidate == 2 {
          if probable(candidate) {
            AcceptedBy(table, probable, candidate);
            return Some(candidate);
          }
        }
      }
      NotAcceptedBy(table, probable, start, difference, half);
      TracksFurther(moduli, table, start, difference);
      difference := difference + 2;
      half := half + 1;
    }
    r := None;
  }

  lemma AcceptedBy(table: seq<nat>, probable: nat -> bool, c: nat)
    requires ProperTable(table) && c > 0
    requires !HasDivisor(table, c) && Pow(2, c) % c == 2 && probable(c)
    ensures Accepted(table, probable, c)
  {
  }

  lemma NotAcceptedBy(table: seq<nat>, probable: nat -> bool, start: nat, difference: nat, half: nat)
    requires ProperTable(table) && start % 2 == 1 && difference == 2 * half
    requires NoneAccepted(table, probable, start, start + difference)
    requires HasDivisor(table, start + difference) || Pow(2, start + difference) % (start + difference) != 2 ||
             !probable(start + difference)
    ensures NoneAccepted(table, probable, start, start + difference + 2)
  {
    var c := start + difference;
    assert !Accepted(table, probable, c);
    hide Accepted;
    forall x: nat | start <= x < c + 2 && x % 2 == 1 ensures !Accepted(table, probable, x) {
      if x >= c { assert x == c; }
    }
  }

  /** One draw: what is found must still have the asked length. */
  method Attempt(octets: seq<nat>, bits: nat, table: seq<nat>, probable: nat -> bool) returns (r: Option<nat>)
    requires bits >= 2 && ProperTable(table)
    ensures r.Some? ==> Gives(octets, bits, table, probable, r.value)
    ensures r.None? ==> Fails(octets, bits, table, probable)
  {
    hide Accepted, Pow, Start, RandomInteger;
    var start := Start(octets, bits);
    StartShape(octets, bits);
    r := FirstAccepted(start, Used(table, bits), probable);
    if r.Some? {
      PowPositive(2, bits - 1);
      HighBit(r.value, bits);
      if r.value / Pow(2, bits - 1) != 1 {
        forall c: nat ensures !Gives(octets, bits, table, probable, c) {
          assert c < r.value ==> !(start <= c && c % 2 == 1 && Accepted(Used(table, bits), probable, c));
        }
        r := None;
      }
    }
  }

  lemma HighBit(c: nat, bits: nat)
    requires bits >= 2 && c >= 3 * Pow(2, bits - 2)
    ensures Pow(2, bits - 1) > 0 && (c / Pow(2, bits - 1) == 1 <==> c < Pow(2, bits))
  {
    var w := Pow(2, bits - 1);
    PowPositive(2, bits - 1);
    assert Pow(2, bits) == 2 * w && w == 2 * Pow(2, bits - 2);
    if c < 2 * w {
      QuotientUnique(c, w, 1, c - w);
    } else {
      assert c == w * (c / w) + c % w;
      hide Pow;
    }
  }

  /** rsa_random_prime: the draws up to the first that succeeds are used up. */
  method RandomPrime(draws: seq<seq<nat>>, bits: nat, table: seq<nat>, probable: nat -> bool)
    returns (r: Option<nat>, used: nat)
    requires bits >= 2 && ProperTable(table)
    ensures used <= |draws|
    ensures r.Some? ==> used > 0 && Gives(draws[used - 1], bits, table, probable, r.value)
    ensures forall j :: 0 <= j < used && (j < used - 1 || r.None?) ==> Fails(draws[j], bits, table, probable)
    ensures r.None? ==> used == |draws|
  {
    hide Gives, Fails;
    var n := 0;
    while n < |draws|
      invariant 0 <= n <= |draws|
      invariant forall j :: 0 <= j < n ==> Fails(draws[j], bits, table, probable)
    {
      r := Attempt(draws[n], bits, table, probable);
      n := n + 1;
      if r.Some? {
        return r, n;
      }
    }
    r, used := None, n;
  }

  // ---------- the sieve and the primes ----------

  /** From 16 bits on, nothing that a table entry divides is given; below, the table has no say. */
  lemma SieveHasItsSay(octets: seq<nat>, bits: nat, table: seq<nat>, probable: nat -> bool, c: nat)
    requires bits >= 2 && ProperTable(table)
    ensures bits >= 16 && Gives(octets, bits, table, probable, c) ==>
              forall i :: 0 <= i < |table| ==> c % table[i] != 0
    ensures bits < 16 ==> Gives(octets, bits, table, probable, c) == Gives(octets, bits, [], probable, c)
  {
    hide Start, Pow, NoneAccepted;
  }

  /** The sieve passes over no prime: candidates are longer than the table entries. */
  lemma SieveKeepsPrimes(table: seq<nat>, bits: nat, c: nat)
    requires bits >= 2 && ProperTable(table) && Prime(c) && c >= 3 * Pow(2, bits - 2)
    ensures !HasDivisor(Used(table, bits), c)
  {
    if bits >= 16 {
      PowMonotone(2, 14, bits - 2);
      PowersOfTwo();
      hide Pow;
      forall i | 0 <= i < |table| ensures c % table[i] != 0 {
        if c % table[i] == 0 { DividesMod(table[i], c); }
      }
    }
  }

  /** An odd prime passes the Fermat test for witness 2. */
  lemma PrimesPassFermat(c: nat)
    requires Prime(c) && c > 2
    ensures Pow(2, c) % c == 2
  {
    FermatNat(c, 2);
    CongSame(Pow(2, c), 2, c);
    QuotientUnique(2, c, 0, 2);
  }

  /** No prime between two numbers, both odd. */
  ghost predicate NoPrime(from: nat, to: nat) {
    forall c: nat :: from <= c < to && c % 2 == 1 ==> !Prime(c)
  }

  /**
   With tests that are never wrong, the search gives exactly the first prime from the
   starting point on, when it is near enough and as long as asked for.
   */
  lemma GivesNextPrime(octets: seq<nat>, bits: nat, table: seq<nat>, probable: nat -> bool, c: nat)
    requires bits >= 2 && ProperTable(table)
    requires forall x: nat :: probable(x) <==> Prime(x)
    ensures Gives(octets, bits, table, probable, c) <==>
            var start := Start(octets, bits);
            && start <= c <= start + 0x70000000 && c < Pow(2, bits) && c % 2 == 1
            && Prime(c) && NoPrime(start, c)
  {
    hide Start, Pow, Prime, HasDivisor;
    var start := Start(octets, bits);
    StartShape(octets, bits);
    PowPositive(2, bits - 2);
    forall x: nat | start <= x && x % 2 == 1
      ensures Accepted(Used(table, bits), probable, x) <==> Prime(x)
    {
      if Prime(x) {
        SieveKeepsPrimes(table, bits, x);
        PrimesPassFermat(x);
      }
    }
  }
}
