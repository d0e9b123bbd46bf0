/**
 IDEA in CFB mode (idea.c).  The transform works on 32-bit words of which only the low 16
 bits mean anything; it is proved to be the cipher on 16-bit words with multiplication modulo
 the prime 65537.
 */
module Idea {
  import opened Bytes
  import opened Modes
  import Numbers

  const TWO16: nat := 0x1_0000
  const TWO32: nat := 0x1_0000_0000

  type half = x: int | 0 <= x < TWO16
  type word = x: int | 0 <= x < TWO32

  /** Arithmetic on word32 wraps around. */
  function Wrap(x: int): word { x % TWO32 }

  /** x & 0xffff */
  function Low(x: word): half { x % TWO16 }

  // ---------- exclusive or of numbers ----------

  function BitXor(x: nat, y: nat): nat
    decreases x + y
  {
    if x == 0 && y == 0 then 0 else (x % 2 + y % 2) % 2 + 2 * BitXor(x / 2, y / 2)
  }

  lemma {:induction false} BitXorBelow(x: nat, y: nat, n: nat)
    requires x < Numbers.Pow(2, n) && y < Numbers.Pow(2, n)
    ensures BitXor(x, y) < Numbers.Pow(2, n)
    decreases n
  {
    if n > 0 {
      BitXorBelow(x / 2, y / 2, n - 1);
    }
  }

  /** Halving commutes with keeping the low bits. */
  lemma HalfMod(x: nat, n: nat)
    requires n > 0 && Numbers.Pow(2, n - 1) > 0
    ensures (x % Numbers.Pow(2, n)) / 2 == (x / 2) % Numbers.Pow(2, n - 1)
    ensures (x % Numbers.Pow(2, n)) % 2 == x % 2
  {
    var m := Numbers.Pow(2, n - 1);
    var h := x / 2;
    var q, r := h / m, h % m;
    assert x == (2 * r + x % 2) + q * (2 * m);
    Numbers.QuotientUnique(x, 2 * m, q, 2 * r + x % 2);
  }

  lemma {:induction false} BitXorMod(x: nat, y: nat, n: nat)
    requires Numbers.Pow(2, n) > 0
    ensures BitXor(x, y) % Numbers.Pow(2, n) == BitXor(x % Numbers.Pow(2, n), y % Numbers.Pow(2, n))
    decreases n
  {
    if n > 0 {
      Numbers.PowPositive(2, n - 1);
      BitXorMod(x / 2, y / 2, n - 1);
      HalfMod(x, n);
      HalfMod(y, n);
      HalfMod(BitXor(x, y), n);
      BitXorHalves(x, y);
      BitXorHalves(x % Numbers.Pow(2, n), y % Numbers.Pow(2, n));
    }
  }

  lemma BitXorHalves(x: nat, y: nat)
    ensures BitXor(x, y) % 2 == (x % 2 + y % 2) % 2 && BitXor(x, y) / 2 == BitXor(x / 2, y / 2)
  {
  }

  // ---------- multiplication modulo 65537 ----------

  /** mulop.  Only the low 16 bits of the result mean anything. */
  function Mulop(a: half, b: half): word {
    var ab := a * b;
    if ab != 0 then
      var lo := ab % TWO16;
      var hi := (ab / TWO16) % TWO16;
      Wrap(lo - hi + (if lo < hi then 1 else 0))
    else if a == 0 then Wrap(1 - b)
    else Wrap(1 - a)
  }

  /** The number that 16 bits stand for in a product: zero stands for 65536. */
  function Unit(a: half): (u: nat)
    ensures 1 <= u <= TWO16
  {
    if a == 0 then TWO16 else a
  }

  lemma SmallDivisor(d: int)
    requires 2 <= d <= 256
    ensures 65537 % d != 0
  {
  }

  lemma LargeProduct(d: int, k: int)
    requires d > 256 && k > 256
    ensures d * k > 65537
  {
    assert d * k >= 257 * k;
  }

  lemma Fermat4IsPrime()
    ensures Numbers.Prime(65537)
  {
    forall d: int | 1 < d < 65537 ensures !Numbers.Divides(d, 65537) {
      if Numbers.Divides(d, 65537) {
        var k: int :| 65537 == d * k;
        assert k > 1;
        if d <= 256 {
          SmallDivisor(d);
          Numbers.QuotientUnique(65537, d, k, 0);
        } else if k <= 256 {
          SmallDivisor(k);
          Numbers.QuotientUnique(65537, k, d, 0);
        } else {
          LargeProduct(d, k);
        }
      }
    }
  }

  /** No product of two 16-bit numbers other than zero is a multiple of 65537. */
  lemma NoZeroDivisors(a: nat, b: nat, k: int)
    requires 0 < a < 65537 && 0 < b < 65537
    ensures a * b != 65537 * k
  {
    if a * b == 65537 * k {
      Fermat4IsPrime();
      assert Numbers.Divides(65537, a * b);
      Numbers.EuclidsLemma(65537, a, b);
      if Numbers.Divides(65537, a) {
        Numbers.DividesLe(65537, a);
      } else {
        Numbers.DividesLe(65537, b);
      }
      assert false;
    }
  }

  lemma ProductFits(a: nat, b: nat)
    requires 0 < a < TWO16 && 0 < b < TWO16
    ensures 0 < a * b < TWO16 * TWO16
  {
    assert a * b <= a * TWO16;
  }

  /** A product is the difference of its halves modulo 65537. */
  lemma HalvesOfProduct(ab: nat, hi: nat, lo: half)
    requires ab == hi * TWO16 + lo && hi < TWO16 && lo != hi
    ensures ab % 65537 == if lo < hi then lo - hi + 65537 else lo - hi
  {
    if lo < hi {
      Numbers.QuotientUnique(ab, 65537, hi - 1, lo - hi + 65537);
    } else {
      Numbers.QuotientUnique(ab, 65537, hi, lo - hi);
    }
  }

  /** The difference of the halves, adjusted as mulop does. */
  lemma AdjustedDifference(lo: half, hi: half)
    requires lo != hi
    ensures Unit(Low(Wrap(lo - hi + (if lo < hi then 1 else 0)))) == if lo < hi then lo - hi + 65537 else lo - hi
  {
  }

  lemma MulopNonZero(a: half, b: half)
    requires a != 0 && b != 0
    ensures Unit(Low(Mulop(a, b))) == (a * b) % 65537
  {
    ProductFits(a, b);
    NonZeroProduct(a, b, a * b / TWO16, a * b % TWO16);
  }

  lemma NonZeroProduct(a: half, b: half, hi: half, lo: half)
    requires a != 0 && b != 0 && a * b != 0 && lo == a * b % TWO16 && hi == a * b / TWO16
    ensures Unit(Low(Mulop(a, b))) == (a * b) % 65537
  {
    assert Mulop(a, b) == Wrap(lo - hi + (if lo < hi then 1 else 0));
    hide Mulop, Wrap, Low, Unit;
    NoZeroDivisors(a, b, hi);
    HalvesOfProduct(a * b, hi, lo);
    AdjustedDifference(lo, hi);
  }

  /** mulop multiplies modulo 65537, with zero standing for 65536. */
  lemma MulopIsProduct(a: half, b: half)
    ensures Unit(Low(Mulop(a, b))) == (Unit(a) * Unit(b)) % 65537
  {
    if a == 0 {
      assert a * b == 0;
      NegatedProduct(b);
    } else if b == 0 {
      assert a * b == 0;
      NegatedProduct(a);
    } else {
      assert Unit(a) == a && Unit(b) == b;
      MulopNonZero(a, b);
    }
  }

  /** 65536 is -1 modulo 65537. */
  lemma NegatedProduct(b: half)
    ensures (TWO16 * Unit(b)) % 65537 == 65537 - Unit(b)
    ensures Unit(Low(Wrap(1 - b))) == 65537 - Unit(b)
  {
    Numbers.QuotientUnique(TWO16 * Unit(b), 65537, Unit(b) - 1, 65537 - Unit(b));
  }

  // ---------- the transform ----------

  function Add(x: word, y: word): word { Wrap(x + y) }

  function XorWord(x: word, y: word): word {
    Numbers.PowersOfTwo();
    BitXorBelow(x, y, 32);
    BitXor(x, y)
  }

  type Keys = k: seq<half> | |k| == 52 witness seq(52, _ => 0)

  /** The words x1 to x4 of idea_transform, high bits and all. */
  datatype Words = Words(x1: word, x2: word, x3: word, x4: word)

  /** One turn of its loop, with keys pointing at subkey k. */
  function Round(keys: Keys, x: Words, k: nat): Words
    requires k + 6 <= 52
  {
    var x1 := Mulop(Low(x.x1), keys[k]);
    var x3 := Add(x.x3, keys[k + 2]);
    var x4 := Mulop(Low(x.x4), keys[k + 3]);
    var x2 := Add(x.x2, keys[k + 1]);
    var t1 := XorWord(x1, x3);
    var t2 := XorWord(x2, x4);
    var t1 := Mulop(Low(t1), keys[k + 4]);
    var t2 := Add(t1, t2);
    var t2 := Mulop(Low(t2), keys[k + 5]);
    var t1 := Add(t1, t2);
    Words(XorWord(x1, t2), XorWord(t2, x3), XorWord(t1, x2), XorWord(x4, t1))
  }

  function Rounds(keys: Keys, x: Words, n: nat): Words
    requires n <= 8
  {
    if n == 0 then x else Round(keys, Rounds(keys, x, n - 1), 6 * n - 6)
  }

  datatype Pair = Pair(l: word, r: word)

  function Begin(l: word, r: word): Words { Words(l / TWO16, l, r / TWO16, r) }

  /** (hi << 16) | lo in 32 bits: the two share no bit, so the union is the sum. */
  function Combine(hi: word, lo: half): word { Wrap(hi * TWO16 + lo) }

  lemma CombineLow(hi: word, lo: half)
    ensures Combine(hi, lo) == Low(hi) * TWO16 + lo == Combine(Low(hi), lo)
  {
    Numbers.QuotientUnique(hi * TWO16 + lo, TWO32, hi / TWO16, hi % TWO16 * TWO16 + lo);
  }

  /** What follows the loop. */
  function Finish(keys: Keys, x: Words): Pair {
    var x1 := Mulop(Low(x.x1), keys[48]);
    var x3 := Low(Add(x.x2, keys[50]));
    var x2 := Add(x.x3, keys[49]);
    var x4 := Mulop(Low(x.x4), keys[51]);
    Pair(Combine(x1, Low(x2)), Combine(x3, Low(x4)))
  }

  /** idea_transform: the words left in output. */
  function Transform(keys: Keys, l: word, r: word): Pair {
    Finish(keys, Rounds(keys, Begin(l, r), 8))
  }

  // ---------- the cipher on 16-bit words ----------

  datatype Halves = Halves(x1: half, x2: half, x3: half, x4: half)

  /** a times b modulo 65537, zero standing for 65536. */
  function Times(a: half, b: half): half { ((Unit(a) * Unit(b)) % 65537) % TWO16 }

  function Plus(a: half, b: half): half { (a + b) % TWO16 }

  function XorHalf(a: half, b: half): half {
    Numbers.PowersOfTwo();
    BitXorBelow(a, b, 16);
    BitXor(a, b)
  }

  /** One round of IDEA: the transformation, the MA structure and the exchange of the middle words. */
  function IdeaRound(keys: Keys, x: Halves, k: nat): Halves
    requires k + 6 <= 52
  {
    var a := Times(x.x1, keys[k]);
    var b := Plus(x.x2, keys[k + 1]);
    var c := Plus(x.x3, keys[k + 2]);
    var d := Times(x.x4, keys[k + 3]);
    var p := Times(XorHalf(a, c), keys[k + 4]);
    var q := Times(Plus(p, XorHalf(b, d)), keys[k + 5]);
    var s := Plus(p, q);
    Halves(XorHalf(a, q), XorHalf(q, c), XorHalf(s, b), XorHalf(d, s))
  }

  function IdeaRounds(keys: Keys, x: Halves, n: nat): Halves
    requires n <= 8
  {
    if n == 0 then x else IdeaRound(keys, IdeaRounds(keys, x, n - 1), 6 * n - 6)
  }

  /** The output transformation, on the middle words exchanged back. */
  function IdeaOutput(keys: Keys, x: Halves): Halves {
    Halves(Times(x.x1, keys[48]), Plus(x.x3, keys[49]), Plus(x.x2, keys[50]), Times(x.x4, keys[51]))
  }

  function Idea(keys: Keys, x: Halves): Halves {
    IdeaOutput(keys, IdeaRounds(keys, x, 8))
  }

  function LowHalves(x: Words): Halves { Halves(Low(x.x1), Low(x.x2), Low(x.x3), Low(x.x4)) }

  lemma LowMulop(a: word, b: half)
    ensures Low(Mulop(Low(a), b)) == Times(Low(a), b)
  {
    MulopIsProduct(Low(a), b);
  }

  lemma LowAdd(x: word, y: word)
    ensures Low(Add(x, y)) == Plus(Low(x), Low(y))
  {
    var a, b := x / TWO16, x % TWO16;
    var c, d := y / TWO16, y % TWO16;
    var carry, low := if b + d < TWO16 then 0 else 1, if b + d < TWO16 then b + d else b + d - TWO16;
    var high := a + c + carry;
    Numbers.QuotientUnique(b + d, TWO16, carry, low);
    Numbers.QuotientUnique(x + y, TWO32, if high < TWO16 then 0 else 1, Add(x, y));
    Numbers.QuotientUnique(Add(x, y), TWO16, if high < TWO16 then high else high - TWO16, low);
  }

  lemma LowXor(x: word, y: word)
    ensures Low(XorWord(x, y)) == XorHalf(Low(x), Low(y))
  {
    Numbers.PowersOfTwo();
    BitXorMod(x, y, 16);
    hide BitXor, Numbers.Pow;
  }

  lemma RoundIsIdea(keys: Keys, x: Words, k: nat)
    requires k + 6 <= 52
    ensures LowHalves(Round(keys, x, k)) == IdeaRound(keys, LowHalves(x), k)
  {
    hide Mulop, Add, XorWord, Low, Times, Plus, XorHalf;
    var x1 := Mulop(Low(x.x1), keys[k]);
    var x3 := Add(x.x3, keys[k + 2]);
    var x4 := Mulop(Low(x.x4), keys[k + 3]);
    var x2 := Add(x.x2, keys[k + 1]);
    var u1, u2 := XorWord(x1, x3), XorWord(x2, x4);
    var t1 := Mulop(Low(u1), keys[k + 4]);
    var v2 := Add(t1, u2);
    var t2 := Mulop(Low(v2), keys[k + 5]);
    var t3 := Add(t1, t2);
    LowMulop(x.x1, keys[k]);
    LowKey(keys, k + 1);
    LowKey(keys, k + 2);
    LowAdd(x.x3, keys[k + 2]);
    LowMulop(x.x4, keys[k + 3]);
    LowAdd(x.x2, keys[k + 1]);
    LowXor(x1, x3);
    LowXor(x2, x4);
    LowMulop(u1, keys[k + 4]);
    LowAdd(t1, u2);
    LowMulop(v2, keys[k + 5]);
    LowAdd(t1, t2);
    LowXor(x1, t2);
    LowXor(t2, x3);
    LowXor(t3, x2);
    LowXor(x4, t3);
  }

  lemma LowTwice(x: half)
    ensures Low(x) == x
  {
  }

  lemma LowKey(keys: Keys, k: nat)
    requires k < 52
    ensures Low(keys[k]) == keys[k]
  {
  }

  lemma {:induction false} RoundsAreIdea(keys: Keys, x: Words, n: nat)
    requires n <= 8
    ensures LowHalves(Rounds(keys, x, n)) == IdeaRounds(keys, LowHalves(x), n)
  {
    hide Round, IdeaRound, LowHalves;
    if n > 0 {
      RoundsAreIdea(keys, x, n - 1);
      RoundIsIdea(keys, Rounds(keys, x, n - 1), 6 * n - 6);
    }
  }

  /** Four halves as the words of the output. */
  function PairOf(y: Halves): Pair { Pair(Combine(y.x1, y.x2), Combine(y.x3, y.x4)) }

  function HalvesOf(l: word, r: word): Halves { Halves(l / TWO16, l % TWO16, r / TWO16, r % TWO16) }

  lemma FinishIsIdea(keys: Keys, x: Words)
    ensures Finish(keys, x) == PairOf(IdeaOutput(keys, LowHalves(x)))
  {
    hide Mulop, Add, Times, Plus, Low, Combine;
    var x1 := Mulop(Low(x.x1), keys[48]);
    var x3: word := Low(Add(x.x2, keys[50]));
    var x2 := Add(x.x3, keys[49]);
    var x4 := Mulop(Low(x.x4), keys[51]);
    LowMulop(x.x1, keys[48]);
    LowAdd(x.x2, keys[50]);
    LowAdd(x.x3, keys[49]);
    LowMulop(x.x4, keys[51]);
    LowKey(keys, 49);
    LowKey(keys, 50);
    LowTwice(x3);
    CombineLow(x1, Low(x2));
    CombineLow(x3, Low(x4));
  }

  lemma BeginIsHalves(l: word, r: word)
    ensures LowHalves(Begin(l, r)) == HalvesOf(l, r)
  {
  }

  /** idea_transform is IDEA: what it leaves in the high bits on the way changes nothing. */
  lemma TransformIsIdea(keys: Keys, l: word, r: word)
    ensures Transform(keys, l, r) == PairOf(Idea(keys, HalvesOf(l, r)))
  {
    hide Rounds, IdeaRounds, Finish, IdeaOutput, Begin, LowHalves, HalvesOf, PairOf;
    RoundsAreIdea(keys, Begin(l, r), 8);
    FinishIsIdea(keys, Rounds(keys, Begin(l, r), 8));
    BeginIsHalves(l, r);
  }
}
