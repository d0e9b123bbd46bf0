/**
 The padded RSA operations (rsaglue.c, without RSAREF): the digit loops, the block
 format 00 02 PS 00 message of section 8.1 of RFC 2313, and the round trip.
 */
module RsaPadding {
  import opened Numbers
  import opened Rsa

  const BASE: nat := 256

  /** The len base-256 digits of v modulo 256^len, most significant first. */
  function Digits(v: nat, len: nat): (s: seq<nat>)
    ensures |s| == len
  {
    if len == 0 then [] else Digits(v / BASE, len - 1) + [v % BASE]
  }

  /** The number with the given digits. */
  function FromDigits(s: seq<nat>): nat {
    if s == [] then 0 else FromDigits(s[..|s| - 1]) * BASE + s[|s| - 1]
  }

  ghost predicate AreDigits(s: seq<nat>) { forall i :: 0 <= i < |s| ==> s[i] < BASE }

  /** mpz_sizeinbase(v, 2), rounded up to bytes; zero takes one bit. */
  function ByteLength(v: nat): (l: nat)
    ensures l >= 1
    decreases v
  {
    if v < BASE then 1 else 1 + ByteLength(v / BASE)
  }

  lemma {:induction false} ByteLengthBound(v: nat)
    ensures v < Pow(BASE, ByteLength(v))
    decreases v
  {
    if v >= BASE {
      ByteLengthBound(v / BASE);
      var w := Pow(BASE, ByteLength(v / BASE));
      assert v == BASE * (v / BASE) + v % BASE;
      assert Pow(BASE, ByteLength(v)) == BASE * w;
    }
  }

  lemma {:induction false} FromDigitsBound(s: seq<nat>)
    requires AreDigits(s)
    ensures FromDigits(s) < Pow(BASE, |s|)
  {
    if s != [] {
      FromDigitsBound(s[..|s| - 1]);
      assert Pow(BASE, |s|) == BASE * Pow(BASE, |s| - 1);
    }
  }

  /** Writing out the digits of a number and reading them back. */
  lemma {:induction false} DigitsOfFrom(s: seq<nat>)
    requires AreDigits(s)
    ensures Digits(FromDigits(s), |s|) == s
  {
    if s != [] {
      var t := s[..|s| - 1];
      DigitsOfFrom(t);
      QuotientUnique(FromDigits(s), BASE, FromDigits(t), s[|s| - 1]);
      assert s == t + [s[|s| - 1]];
    }
  }

  /** The digits of hi * 256^k + lo are those of hi followed by those of lo. */
  lemma {:induction false} DigitsJoin(hi: nat, lo: nat, j: nat, k: nat)
    requires lo < Pow(BASE, k)
    ensures hi * Pow(BASE, k) >= 0
    ensures Digits(hi * Pow(BASE, k) + lo, j + k) == Digits(hi, j) + Digits(lo, k)
    decreases k
  {
    PowPositive(BASE, k);
    MulLe(0, hi, Pow(BASE, k));
    if k > 0 {
      var w := Pow(BASE, k - 1);
      assert Pow(BASE, k) == BASE * w;
      MulAssoc(hi, BASE, w);
      MulAssoc(BASE, hi, w);
      assert hi * BASE == BASE * hi;
      var v := hi * Pow(BASE, k) + lo;
      assert lo == BASE * (lo / BASE) + lo % BASE;
      PowPositive(BASE, k - 1);
      MulLe(0, hi, w);
      assert v == BASE * (hi * w + lo / BASE) + lo % BASE;
      QuotientUnique(v, BASE, hi * w + lo / BASE, lo % BASE);
      DigitsJoin(hi, lo / BASE, j, k - 1);
      assert Digits(hi, j) + (Digits(lo / BASE, k - 1) + [lo % BASE]) == (Digits(hi, j) + Digits(lo / BASE, k - 1)) +
          [lo % BASE];
    }
  }

  /** Reading back the digits of a number that fits. */
  lemma {:induction false} FromDigitsOf(v: nat, len: nat)
    requires v < Pow(BASE, len)
    ensures FromDigits(Digits(v, len)) == v && AreDigits(Digits(v, len))
  {
    if len > 0 {
      assert v == BASE * (v / BASE) + v % BASE;
      assert Pow(BASE, len) == BASE * Pow(BASE, len - 1);
      FromDigitsOf(v / BASE, len - 1);
      var s := Digits(v, len);
      assert s[..len - 1] == Digits(v / BASE, len - 1);
    }
  }

  // ---------- the digit loops ----------

  const LIMB: nat := 0x1_0000_0000

  /** A limb holds four digits. */
  lemma LimbDigits(a: nat)
    ensures var l := a % LIMB;
            && l % BASE == a % BASE
            && (l / BASE) % BASE == (a / BASE) % BASE
            && (l / 0x1_0000) % BASE == (a / BASE / BASE) % BASE
            && l / 0x100_0000 == (a / BASE / BASE / BASE) % BASE
    ensures a / LIMB == a / BASE / BASE / BASE / BASE
  {
    var a1 := a / BASE;
    var a2 := a1 / BASE;
    var a3 := a2 / BASE;
    var d0, d1, d2, d3 := a % BASE, a1 % BASE, a2 % BASE, a3 % BASE;
    var l := d0 + BASE * (d1 + BASE * (d2 + BASE * d3));
    QuotientUnique(a, LIMB, a3 / BASE, l);
    QuotientUnique(l, BASE, d1 + BASE * (d2 + BASE * d3), d0);
    QuotientUnique(d1 + BASE * (d2 + BASE * d3), BASE, d2 + BASE * d3, d1);
    QuotientUnique(l, 0x1_0000, d2 + BASE * d3, d0 + BASE * d1);
    QuotientUnique(d2 + BASE * d3, BASE, d3, d2);
    QuotientUnique(l, 0x100_0000, d3, d0 + BASE * (d1 + BASE * d2));
  }

  lemma FourDigits(a: nat, len: nat)
    requires len >= 4
    ensures Digits(a, len) == Digits(a / BASE / BASE / BASE / BASE, len - 4)
              + [(a / BASE / BASE / BASE) % BASE, (a / BASE / BASE) % BASE, (a / BASE) % BASE, a % BASE]
  {
    var a1 := a / BASE;
    var a2 := a1 / BASE;
    var a3 := a2 / BASE;
    assert Digits(a, len) == Digits(a1, len - 1) + [a % BASE];
    assert Digits(a1, len - 1) == Digits(a2, len - 2) + [a1 % BASE];
    assert Digits(a2, len - 2) == Digits(a3, len - 3) + [a2 % BASE];
    assert Digits(a3, len - 3) == Digits(a3 / BASE, len - 4) + [a3 % BASE];
  }

  lemma LimbStep(a: nat, len: nat, tail: seq<nat>)
    requires len >= 4
    ensures var l := a % LIMB;
            Digits(a, len) + tail == Digits(a / LIMB, len - 4) +
            ([l / 0x100_0000, (l / 0x1_0000) % BASE, (l / BASE) % BASE, l % BASE] + tail)
  {
    LimbDigits(a);
    FourDigits(a, len);
    hide Digits;
  }

  lemma DigitStep(a: nat, len: nat, tail: seq<nat>)
    requires len > 0
    ensures Digits(a, len) + tail == Digits(a / BASE, len - 1) + ([a % BASE] + tail)
  {
  }

  /** mp_linearize_msb_first, and the same loops in rsa_private_decrypt. */
  method Linearize(v: nat, len: nat) returns (value: array<nat>)
    ensures fresh(value) && value[..] == Digits(v, len)
  {
    hide Digits;
    value := new nat[len];
    var aux: nat := v;
    var i := len;
    assert value[len..] == [];
    while i >= 4
      invariant 0 <= i <= len && value.Length == len
      invariant Digits(aux, i) + value[i..] == Digits(v, len)
    {
      var limb := aux % LIMB;
      LimbStep(aux, i, value[i..]);
      PutLimb(value, i, limb);
      aux := aux / LIMB;
      i := i - 4;
    }
    while i > 0
      invariant 0 <= i <= len && value.Length == len
      invariant Digits(aux, i) + value[i..] == Digits(v, len)
    {
      ghost var tail := value[i..];
      DigitStep(aux, i, tail);
      value[i - 1] := aux % BASE;
      assert value[i - 1..] == [aux % BASE] + tail;
      aux := aux / BASE;
      i := i - 1;
    }
    NoDigits(aux);
    assert value[0..] == value[..];
  }

  lemma NoDigits(a: nat)
    ensures Digits(a, 0) == []
  {
  }

  /** PUT_32BIT just before index i. */
  method PutLimb(value: array<nat>, i: nat, limb: nat)
    requires 4 <= i <= value.Length && limb < LIMB
    modifies value
    ensures value[i - 4..] == [limb / 0x100_0000, (limb / 0x1_0000) % BASE, (limb / BASE) % BASE, limb % BASE] +
        old(value[i..])
  {
    value[i - 4] := limb / 0x100_0000;
    value[i - 3] := (limb / 0x1_0000) % BASE;
    value[i - 2] := (limb / BASE) % BASE;
    value[i - 1] := limb % BASE;
    assert value[i..] == old(value[i..]);
  }

  /** mp_unlinearize_msb_first: four digits at a time, then the rest. */
  method Unlinearize(buf: seq<nat>) returns (v: nat)
    requires AreDigits(buf)
    ensures v == FromDigits(buf)
  {
    v := 0;
    var i := 0;
    while i + 4 <= |buf|
      invariant 0 <= i <= |buf|
      invariant v == FromDigits(buf[..i])
    {
      var limb := buf[i] * 0x100_0000 + buf[i + 1] * 0x1_0000 + buf[i + 2] * BASE + buf[i + 3];
      NextDigit(buf, i);
      NextDigit(buf, i + 1);
      NextDigit(buf, i + 2);
      NextDigit(buf, i + 3);
      v := v * LIMB;
      v := v + limb;
      i := i + 4;
    }
    while i < |buf|
      invariant 0 <= i <= |buf|
      invariant v == FromDigits(buf[..i])
    {
      NextDigit(buf, i);
      v := v * BASE;
      v := v + buf[i];
      i := i + 1;
    }
    assert buf[..|buf|] == buf;
  }

  lemma NextDigit(buf: seq<nat>, i: nat)
    requires i < |buf|
    ensures FromDigits(buf[..i + 1]) == FromDigits(buf[..i]) * BASE + buf[i]
  {
    assert buf[..i + 1][..i] == buf[..i];
  }

  // ---------- the block ----------

  /** 2, then the padding, then a zero digit, then the message of inputLen digits. */
  function Block(input: nat, inputLen: nat, pad: seq<nat>): nat {
    PowNat(inputLen + 1);
    FromDigits([2] + pad) * Pow(BASE, inputLen + 1) + input
  }

  lemma PowNat(k: nat)
    ensures Pow(BASE, k) > 0
    ensures forall x: nat :: x * Pow(BASE, k) >= 0
  {
    PowPositive(BASE, k);
  }

  ghost predicate NonzeroDigits(s: seq<nat>) { forall i :: 0 <= i < |s| ==> 0 < s[i] < BASE }

  /** With a leading zero digit the block is 0, 2, padding, 0, message. */
  lemma BlockDigits(input: nat, inputLen: nat, pad: seq<nat>)
    requires input < Pow(BASE, inputLen) && NonzeroDigits(pad)
    ensures Digits(Block(input, inputLen, pad), |pad| + inputLen + 3)
            == [0, 2] + pad + [0] + Digits(input, inputLen)
  {
    var hi := FromDigits([2] + pad);
    var digits := [0] + ([2] + pad);
    LeadingZero([2] + pad);
    DigitsOfFrom(digits);
    assert Pow(BASE, inputLen + 1) == BASE * Pow(BASE, inputLen);
    DigitsJoin(hi, input, |pad| + 2, inputLen + 1);
    QuotientUnique(0, BASE, 0, 0);
    assert Digits(input, inputLen + 1) == [0] + Digits(input, inputLen) by {
      DigitsJoin(0, input, 1, inputLen);
      assert 0 * Pow(BASE, inputLen) == 0;
      assert Digits(0, 1) == Digits(0, 0) + [0];
      assert 1 + inputLen == inputLen + 1;
    }
    assert digits + ([0] + Digits(input, inputLen)) == [0, 2] + pad + [0] + Digits(input, inputLen);
  }

  lemma {:induction false} LeadingZero(s: seq<nat>)
    ensures FromDigits([0] + s) == FromDigits(s)
  {
    if s == [] {
      assert [0] + s == [0];
      assert [0][..0] == [];
    } else {
      LeadingZero(s[..|s| - 1]);
      assert ([0] + s)[..|s|] == [0] + s[..|s| - 1];
    }
  }

  // ---------- encryption and decryption ----------

  datatype Result = Success(value: nat) | Fatal

  /** rsa_public_encrypt.  `pad` holds the nonzero random bytes the inner loop keeps. */
  method RsaPublicEncrypt(input: nat, key: PublicKey, pad: seq<nat>) returns (r: Result)
    requires key.n > 0
    requires (key.bits + 7) / 8 >= ByteLength(input) + 3
    requires |pad| == (key.bits + 7) / 8 - ByteLength(input) - 3 && NonzeroDigits(pad)
    ensures r == if key.e < 3 then Fatal
                 else Success(Pow(Block(input, ByteLength(input), pad), key.e) % key.n)
  {
    if key.e < 3 {
      return Fatal;
    }
    var inputLen := ByteLength(input);
    var len := (key.bits + 7) / 8;
    var aux := 2;
    var i := 2;
    ghost var whole := [2] + pad;
    assert whole[..1] == [2] && [2][..0] == [];
    while i < len - inputLen - 1
      invariant 2 <= i <= len - inputLen - 1
      invariant aux == FromDigits(whole[..i - 1])
    {
      NextDigit(whole, i - 1);
      aux := aux * BASE;
      aux := aux + pad[i - 2];
      i := i + 1;
    }
    assert whole[..|whole|] == whole;
    PowNat(inputLen + 1);
    aux := aux * Pow(BASE, inputLen + 1);
    aux := aux + input;
    var output := RsaPublic(aux, key);
    r := Success(output);
  }

  /** Index of the first zero digit at or after i, or the length. */
  function FirstZero(s: seq<nat>, i: nat): (r: nat)
    requires i <= |s|
    ensures i <= r <= |s| && (r < |s| ==> s[r] == 0)
    ensures forall j :: i <= j < r ==> s[j] != 0
    decreases |s| - i
  {
    if i == |s| || s[i] == 0 then i else FirstZero(s, i + 1)
  }

  /** What rsa_private_decrypt makes of the decrypted number.  Without a zero digit the
      bit count wraps to almost 2^32, and the number is left as it is. */
  function Unpadded(v: nat, len: nat): Result
    requires len >= 2
  {
    var s := Digits(v, len);
    if s[0] != 0 || s[1] != 2 then Fatal
    else
      var i := FirstZero(s, 2);
      PowNat(if i < len then len - i - 1 else 0);
      Success(if i == len then v else v % Pow(BASE, len - i - 1))
  }

  /**
   What decryption owes for the number v, of which it sees the len lowest digits: an error exactly
   when they do not begin with 0 and 2, the message of a padded block, and v itself when no zero
   digit follows.
   */
  ghost predicate Answers(v: nat, len: nat, r: Result)
    requires len >= 2
  {
    PowNat(len);
    var w := v % Pow(BASE, len);
    && (r.Fatal? <==> !(2 * Pow(BASE, len - 2) <= w < 3 * Pow(BASE, len - 2)))
    && (r.Success? ==>
          || (exists k: nat, pad: seq<nat> :: NonzeroDigits(pad) && |pad| + k + 3 == len
               && r.value < Pow(BASE, k) && w == Block(r.value, k, pad))
          || (exists pad: seq<nat> :: NonzeroDigits(pad) && |pad| + 2 == len
               && w == FromDigits([2] + pad) && r.value == v))
  }

  lemma {:induction false} FromDigitsJoin(s: seq<nat>, t: seq<nat>)
    ensures FromDigits(s + t) == FromDigits(s) * Pow(BASE, |t|) + FromDigits(t)
  {
    if t == [] {
      assert s + t == s;
    } else {
      var t' := t[..|t| - 1];
      FromDigitsJoin(s, t');
      assert (s + t)[..|s + t| - 1] == s + t';
      assert Pow(BASE, |t|) == BASE * Pow(BASE, |t'|);
      MulAssoc(FromDigits(s), Pow(BASE, |t'|), BASE);
    }
  }

  lemma DigitsOfLow(v: nat, j: nat, k: nat)
    ensures Pow(BASE, k) > 0 && Digits(v, j + k)[j..] == Digits(v % Pow(BASE, k), k)
  {
    PowNat(k);
    DigitsJoin(v / Pow(BASE, k), v % Pow(BASE, k), j, k);
    assert v / Pow(BASE, k) * Pow(BASE, k) + v % Pow(BASE, k) == v;
  }

  lemma DigitsOf(s: seq<nat>, w: nat)
    requires |s| >= 2 && AreDigits(s) && w == FromDigits(s)
    ensures s[0] == 0 && s[1] == 2 <==> 2 * Pow(BASE, |s| - 2) <= w < 3 * Pow(BASE, |s| - 2)
  {
    var p, t := Pow(BASE, |s| - 2), s[2..];
    assert s == [s[0], s[1]] + t;
    FromDigitsJoin([s[0], s[1]], t);
    FromDigitsBound(t);
    var top := FromDigits([s[0], s[1]]);
    TwoDigits(s[0], s[1]);
    if top < 2 { MulLe(top + 1, 2, p); MulDistribute(p, top, 1); }
    if top > 2 { MulLe(3, top, p); }
  }

  lemma TwoDigits(a: nat, b: nat)
    ensures FromDigits([a, b]) == BASE * a + b
  {
    assert [a, b][..1] == [a] && [a][..0] == [];
    assert FromDigits([]) == 0;
    assert FromDigits([a]) == a;
  }

  /** The digits of a padded block, with the message behind the zero digit in place z. */
  lemma BlockWithZero(s: seq<nat>, z: nat)
    requires 2 <= z < |s| && AreDigits(s) && s[0] == 0 && s[1] == 2 && s[z] == 0
    ensures FromDigits(s) == Block(FromDigits(s[z + 1..]), |s| - z - 1, s[2..z])
  {
    hide FromDigits, Pow, AreDigits;
    var pad, message := s[2..z], s[z + 1..];
    assert [0] + ([2] + pad) == s[..z];
    assert s == s[..z] + ([0] + message) && |[0] + message| == |s| - z;
    LeadingZero([2] + pad);
    LeadingZero(message);
    FromDigitsJoin(s[..z], [0] + message);
  }

  lemma LowestDigits(v: nat, z: nat, len: nat)
    requires z < len
    ensures Pow(BASE, len - z - 1) > 0
    ensures FromDigits(Digits(v, len)[z + 1..]) == v % Pow(BASE, len - z - 1) < Pow(BASE, len - z - 1)
  {
    var k := len - z - 1;
    DigitsOfLow(v, z + 1, k);
    FromDigitsOf(v % Pow(BASE, k), k);
  }

  /** Unpadding gives what is owed, for every number and length. */
  lemma UnpaddedAnswers(v: nat, len: nat)
    requires len >= 2
    ensures Answers(v, len, Unpadded(v, len))
  {
    hide Digits, FromDigits, Pow, Block;
    PowNat(len);
    var s, w := Digits(v, len), v % Pow(BASE, len);
    DigitsOfLow(v, 0, len);
    assert s[0..] == s;
    FromDigitsOf(w, len);
    DigitsOf(s, w);
    if s[0] == 0 && s[1] == 2 {
      var z := FirstZero(s, 2);
      var pad := s[2..z];
      assert NonzeroDigits(pad);
      if z < len {
        BlockWithZero(s, z);
        LowestDigits(v, z, len);
      } else {
        assert [0] + ([2] + pad) == s;
        LeadingZero([2] + pad);
      }
    }
  }

  /** What rsa_private computes: the one number below n with these two remainders. */
  ghost predicate IsPrivate(v: nat, input: nat, key: PrivateKey)
    requires ValidFactors(key)
  {
    && v < key.n
    && v % key.p == Pow(input % key.p, key.d % (key.p - 1)) % key.p
    && v % key.q == Pow(input % key.q, key.d % (key.q - 1)) % key.q
  }

  lemma PrivateIsUnique(v: nat, w: nat, input: nat, key: PrivateKey)
    requires ValidFactors(key) && IsPrivate(v, input, key) && IsPrivate(w, input, key)
    ensures v == w
  {
    Characterised(key.p, key.q, v, w);
    QuotientUnique(w, key.n, 0, w);
  }

  /** rsa_private_decrypt: for every input, the unpadded result of rsa_private, which is input^d
      mod n but for the inputs that a reduced exponent gets wrong. */
  method RsaPrivateDecrypt(input: nat, key: PrivateKey) returns (r: Result)
    requires ValidFactors(key) && key.bits >= 9
    ensures key.n > 0
    ensures exists v: nat :: IsPrivate(v, input, key) && Answers(v, (key.bits + 7) / 8, r)
                               && r == Unpadded(v, (key.bits + 7) / 8)
    ensures !ReducedWrongly(input, key.d, key.p) && !ReducedWrongly(input, key.d, key.q) ==>
              r == Unpadded(Pow(input, key.d) % key.n, (key.bits + 7) / 8)
  {
    hide Answers, NonzeroDigits, Digits, ReducedWrongly;
    var output := RsaPrivate(input, key);
    assert IsPrivate(output, input, key);
    var len := (key.bits + 7) / 8;
    UnpaddedAnswers(output, len);
    var value := Linearize(output, len);
    if value[0] != 0 || value[1] != 2 {
      return Fatal;
    }
    var i := 2;
    while i < len && value[i] != 0
      invariant 2 <= i <= len
      invariant FirstZero(value[..], 2) == FirstZero(value[..], i)
    {
      i := i + 1;
    }
    if i < len {
      PowNat(len - i - 1);
      output := output % Pow(BASE, len - i - 1);
    }
    r := Success(output);
  }

  /** Setting the two top bits of both primes gives the modulus its full length. */
  lemma ModulusLarge(p: nat, q: nat, pbits: nat, qbits: nat)
    requires pbits >= 2 && qbits >= 2
    requires p >= 3 * Pow(2, pbits - 2) && q >= 3 * Pow(2, qbits - 2)
    ensures p * q >= Pow(2, pbits + qbits - 1)
  {
    var a, b := Pow(2, pbits - 2), Pow(2, qbits - 2);
    PowPositive(2, pbits - 2);
    PowPositive(2, qbits - 2);
    MulLe(3 * a, p, q);
    MulLe(3 * b, q, 3 * a);
    PowAdd(2, pbits - 2, qbits - 2);
    PowAdd(2, pbits - 2 + (qbits - 2), 3);
    assert Pow(2, 3) == 8 by { assert Pow(2, 0) == 1 && Pow(2, 1) == 2 && Pow(2, 2) == 4; }
    hide Pow;
    assert (3 * a) * (3 * b) == 9 * (a * b) by { NineTimes(a, b); }
    MulLe(0, a, b);
  }

  lemma NineTimes(a: nat, b: nat)
    ensures (3 * a) * (3 * b) == 9 * (a * b)
  {
  }

  /** A block fits below a modulus of full length. */
  lemma BlockBelowModulus(input: nat, inputLen: nat, pad: seq<nat>, bits: nat, n: nat)
    requires input < Pow(BASE, inputLen) && NonzeroDigits(pad)
    requires (bits + 7) / 8 == |pad| + inputLen + 3 && n >= Pow(2, bits - 1)
    ensures Block(input, inputLen, pad) < n
  {
    var w := [2] + pad;
    var len := (bits + 7) / 8;
    FromDigitsBound(w);
    TopDigit(pad);
    // the block is below 3 * 256^(len - 2), the modulus at least 256^(len - 1)
    var k := inputLen + 1;
    assert Pow(BASE, k) == BASE * Pow(BASE, inputLen);
    PowNat(inputLen);
    PowNat(k);
    MulLe(FromDigits(w) + 1, 3 * Pow(BASE, |pad|), Pow(BASE, k));
    PowAdd(BASE, |pad|, k);
    MulAssoc(3, Pow(BASE, |pad|), Pow(BASE, k));
    MulDistribute(Pow(BASE, k), FromDigits(w), 1);
    assert |pad| + k == len - 2;
    PowNat(len - 2);
    assert Pow(BASE, len - 1) == BASE * Pow(BASE, len - 2);
    BaseIsPower(len - 1);
    PowMonotone(2, 8 * (len - 1), bits - 1);
  }

  lemma {:induction false} TopDigit(pad: seq<nat>)
    requires NonzeroDigits(pad)
    ensures FromDigits([2] + pad) < 3 * Pow(BASE, |pad|)
  {
    if pad == [] {
      assert [2] + pad == [2] && [2][..0] == [];
    } else {
      TopDigit(pad[..|pad| - 1]);
      assert ([2] + pad)[..|pad|] == [2] + pad[..|pad| - 1];
      assert Pow(BASE, |pad|) == BASE * Pow(BASE, |pad| - 1);
    }
  }

  lemma {:induction false} BaseIsPower(k: nat)
    ensures Pow(BASE, k) == Pow(2, 8 * k)
  {
    PowMul(2, 8, k);
    assert Pow(2, 8) == 256 by {
      assert Pow(2, 4) == 16 by { assert Pow(2, 2) == 4 && Pow(2, 3) == 8; }
      PowAdd(2, 4, 4);
    }
  }

  /** Unpadding the block gives back the message. */
  lemma UnpadBlock(input: nat, inputLen: nat, pad: seq<nat>)
    requires input < Pow(BASE, inputLen) && NonzeroDigits(pad)
    ensures Unpadded(Block(input, inputLen, pad), |pad| + inputLen + 3) == Success(input)
  {
    BlockDigits(input, inputLen, pad);
    var len := |pad| + inputLen + 3;
    var s := Digits(Block(input, inputLen, pad), len);
    FirstZeroAfter(s, 2, |pad| + 2);
    // what is left is the block modulo 256^inputLen
    PowNat(inputLen);
    var h := FromDigits([2] + pad);
    assert Pow(BASE, inputLen + 1) == BASE * Pow(BASE, inputLen);
    MulAssoc(h, BASE, Pow(BASE, inputLen));
    assert (h * BASE) * Pow(BASE, inputLen) == Pow(BASE, inputLen) * (h * BASE);
    QuotientUnique(Block(input, inputLen, pad), Pow(BASE, inputLen), h * BASE, input);
  }

  lemma {:induction false} FirstZeroAfter(s: seq<nat>, i: nat, z: nat)
    requires i <= z < |s| && s[z] == 0 && forall j :: i <= j < z ==> s[j] != 0
    ensures FirstZero(s, i) == z
    decreases z - i
  {
    if i < z { FirstZeroAfter(s, i + 1, z); }
  }

  /** Decryption inverts encryption for every message that fits and every padding. */
  method RoundTrip(input: nat, pub: PublicKey, prv: PrivateKey, pad: seq<nat>) returns (r: Result)
    requires KeyPair(pub, prv) && pub.e >= 3 && pub.bits >= 9 && prv.n >= Pow(2, prv.bits - 1)
    requires (pub.bits + 7) / 8 >= ByteLength(input) + 3
    requires |pad| == (pub.bits + 7) / 8 - ByteLength(input) - 3 && NonzeroDigits(pad)
    ensures r == Success(input)
  {
    ByteLengthBound(input);
    BlockBelowModulus(input, ByteLength(input), pad, pub.bits, prv.n);
    var c := RsaPublicEncrypt(input, pub, pad);
    DerivedReducesRightly(prv.p, prv.e, prv.d, c.value);
    DerivedReducesRightly(prv.q, prv.e, prv.d, c.value);
    ExponentsInverse(prv.p, prv.q, prv.e, prv.d, Block(input, ByteLength(input), pad));
    UnpadBlock(input, ByteLength(input), pad);
    r := RsaPrivateDecrypt(c.value, prv);
  }
}
