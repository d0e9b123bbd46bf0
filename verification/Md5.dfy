/**
 The MD5 message digest (md5.c): a context that takes a message in pieces, against the digest
 of sections 3.1 to 3.5 of RFC 1321 over the whole padded message.
 */
module Md5 {
  import opened Bytes
  import opened MachineWords
  import Numbers

  const W := 0x1_0000_0000

  datatype Words = Words(a: word32, b: word32, c: word32, d: word32)

  const START := Words(0x67452301, 0xefcdab89, 0x98badcfe, 0x10325476)

  // ---------- one block, section 3.4 ----------

  function F(x: word32, y: word32, z: word32): word32 { (x & y) | (!x & z) }

  function G(x: word32, y: word32, z: word32): word32 { (x & z) | (y & !z) }

  function H(x: word32, y: word32, z: word32): word32 { x ^ y ^ z }

  function I(x: word32, y: word32, z: word32): word32 { y ^ (x | !z) }

  /** The four functions as the program computes them. */
  function F1(x: word32, y: word32, z: word32): word32 { z ^ (x & (y ^ z)) }

  function F2(x: word32, y: word32, z: word32): word32 { F1(z, x, y) }

  function F3(x: word32, y: word32, z: word32): word32 { x ^ y ^ z }

  function F4(x: word32, y: word32, z: word32): word32 { y ^ (x | !z) }

  lemma ChooseOperators(x: word32, y: word32, z: word32)
    ensures z ^ (x & (y ^ z)) == (x & y) | (!x & z)
    ensures y ^ (z & (x ^ y)) == (x & z) | (y & !z)
  {
    hide *;
  }

  lemma FastFunctions(x: word32, y: word32, z: word32)
    ensures F1(x, y, z) == F(x, y, z) && F2(x, y, z) == G(x, y, z)
    ensures F3(x, y, z) == H(x, y, z) && F4(x, y, z) == I(x, y, z)
  {
    ChooseOperators(x, y, z);
  }

  function Constant1(j: nat): word32 {
    match j
    case 0 => 0xd76aa478
    case 1 => 0xe8c7b756
    case 2 => 0x242070db
    case 3 => 0xc1bdceee
    case 4 => 0xf57c0faf
    case 5 => 0x4787c62a
    case 6 => 0xa8304613
    case 7 => 0xfd469501
    case 8 => 0x698098d8
    case 9 => 0x8b44f7af
    case 10 => 0xffff5bb1
    case 11 => 0x895cd7be
    case 12 => 0x6b901122
    case 13 => 0xfd987193
    case 14 => 0xa679438e
    case _ => 0x49b40821
  }

  function Constant2(j: nat): word32 {
    match j
    case 0 => 0xf61e2562
    case 1 => 0xc040b340
    case 2 => 0x265e5a51
    case 3 => 0xe9b6c7aa
    case 4 => 0xd62f105d
    case 5 => 0x02441453
    case 6 => 0xd8a1e681
    case 7 => 0xe7d3fbc8
    case 8 => 0x21e1cde6
    case 9 => 0xc33707d6
    case 10 => 0xf4d50d87
    case 11 => 0x455a14ed
    case 12 => 0xa9e3e905
    case 13 => 0xfcefa3f8
    case 14 => 0x676f02d9
    case _ => 0x8d2a4c8a
  }

  function Constant3(j: nat): word32 {
    match j
    case 0 => 0xfffa3942
    case 1 => 0x8771f681
    case 2 => 0x6d9d6122
    case 3 => 0xfde5380c
    case 4 => 0xa4beea44
    case 5 => 0x4bdecfa9
    case 6 => 0xf6bb4b60
    case 7 => 0xbebfbc70
    case 8 => 0x289b7ec6
    case 9 => 0xeaa127fa
    case 10 => 0xd4ef3085
    case 11 => 0x04881d05
    case 12 => 0xd9d4d039
    case 13 => 0xe6db99e5
    case 14 => 0x1fa27cf8
    case _ => 0xc4ac5665
  }

  function Constant4(j: nat): word32 {
    match j
    case 0 => 0xf4292244
    case 1 => 0x432aff97
    case 2 => 0xab9423a7
    case 3 => 0xfc93a039
    case 4 => 0x655b59c3
    case 5 => 0x8f0ccc92
    case 6 => 0xffeff47d
    case 7 => 0x85845dd1
    case 8 => 0x6fa87e4f
    case 9 => 0xfe2ce6e0
    case 10 => 0xa3014314
    case 11 => 0x4e0811a1
    case 12 => 0xf7537e82
    case 13 => 0xbd3af235
    case 14 => 0x2ad7d2bb
    case _ => 0xeb86d391
  }

  function Rotate(x: word32, s: nat): word32
    requires s <= 32
  {
    (x << s) | (x >> (32 - s))
  }

  function Mix(i: nat, x: word32, y: word32, z: word32): word32 {
    if i < 16 then F(x, y, z) else if i < 32 then G(x, y, z) else if i < 48 then H(x, y, z) else I(x, y, z)
  }

  /** The word of the block that step i takes. */
  function Index(i: nat): (k: nat)
    ensures k < 16
  {
    if i < 16 then i else if i < 32 then (5 * i + 1) % 16 else if i < 48 then (3 * i + 5) % 16 else 7 * i % 16
  }

  function Constant(i: nat): word32
    requires i < 64
  {
    if i < 16 then Constant1(i) else if i < 32 then Constant2(i - 16)
    else if i < 48 then Constant3(i - 32) else Constant4(i - 48)
  }

  function Pick(j: nat, s0: nat, s1: nat, s2: nat, s3: nat): nat {
    if j == 0 then s0 else if j == 1 then s1 else if j == 2 then s2 else s3
  }

  function Shift(i: nat): (s: nat)
    ensures s <= 32
  {
    var j := i % 4;
    if i < 16 then Pick(j, 7, 12, 17, 22) else if i < 32 then Pick(j, 5, 9, 14, 20)
    else if i < 48 then Pick(j, 4, 11, 16, 23) else Pick(j, 6, 10, 15, 21)
  }

  /** Step i, with the registers renamed after it. */
  function OneStep(w: Words, x: seq<word32>, i: nat): Words
    requires |x| == 16 && i < 64
  {
    var sum := Plus(w.a, Plus(Mix(i, w.b, w.c, w.d), Plus(x[Index(i)], Constant(i))));
    Words(w.d, Plus(Rotate(sum, Shift(i)), w.b), w.b, w.c)
  }

  /** The n steps from step i on. */
  function Steps(w: Words, x: seq<word32>, i: nat, n: nat): Words
    requires |x| == 16 && i + n <= 64
    decreases n
  {
    if n == 0 then w else OneStep(Steps(w, x, i, n - 1), x, i + n - 1)
  }

  function AddWords(v: Words, w: Words): Words {
    Words(Plus(v.a, w.a), Plus(v.b, w.b), Plus(v.c, w.c), Plus(v.d, w.d))
  }

  function Decode(block: seq<byte>): (x: seq<word32>)
    requires |block| == 64
    ensures |x| == 16
  {
    seq(16, i requires 0 <= i < 16 => GetLsb(block[4 * i..4 * i + 4]))
  }

  function Compress(w: Words, block: seq<byte>): Words
    requires |block| == 64
  {
    AddWords(w, Steps(w, Decode(block), 0, 64))
  }

  /** MD5STEP */
  function Md5Step(f: word32, w: word32, x: word32, data: word32, s: nat): word32
    requires s <= 32
  {
    Plus(Rotate(Plus(w, Plus(f, data)), s), x)
  }

  function FastMix(i: nat, x: word32, y: word32, z: word32): word32 {
    if i < 16 then F1(x, y, z) else if i < 32 then F2(x, y, z) else if i < 48 then F3(x, y, z) else F4(x, y, z)
  }

  lemma MixIsFast(i: nat, x: word32, y: word32, z: word32)
    ensures FastMix(i, x, y, z) == Mix(i, x, y, z)
  {
    FastFunctions(x, y, z);
    hide F, G, H, I, F1, F2, F3, F4;
  }

  lemma StepMeets(i: nat, w: Words, x: seq<word32>)
    requires |x| == 16 && i < 64
    ensures Words(w.d, FastStep(i, w.a, w.b, w.c, w.d, x), w.b, w.c) == OneStep(w, x, i)
  {
    hide Mix, FastMix, Index, Constant, Shift, Rotate, Plus;
    MixIsFast(i, w.b, w.c, w.d);
  }

  function FastStep(i: nat, a: word32, b: word32, c: word32, d: word32, x: seq<word32>): word32
    requires |x| == 16 && i < 64
  {
    Md5Step(FastMix(i, b, c, d), a, b, Plus(x[Index(i)], Constant(i)), Shift(i))
  }

  /** Four lines of the program are four steps, and the registers have their names back. */
  lemma Quad(v: Words, w: Words, x: seq<word32>, i: nat)
    requires |x| == 16 && i + 4 <= 64
    requires w.a == FastStep(i, v.a, v.b, v.c, v.d, x)
    requires w.d == FastStep(i + 1, v.d, w.a, v.b, v.c, x)
    requires w.c == FastStep(i + 2, v.c, w.d, w.a, v.b, x)
    requires w.b == FastStep(i + 3, v.b, w.c, w.d, w.a, x)
    ensures w == Steps(v, x, i, 4)
  {
    hide OneStep, FastStep;
    StepMeets(i, v, x);
    StepMeets(i + 1, Words(v.d, w.a, v.b, v.c), x);
    StepMeets(i + 2, Words(v.c, w.d, w.a, v.b), x);
    StepMeets(i + 3, Words(v.b, w.c, w.d, w.a), x);
    assert Steps(v, x, i, 0) == v;
    assert Steps(v, x, i, 1) == Words(v.d, w.a, v.b, v.c);
    assert Steps(v, x, i, 2) == Words(v.c, w.d, w.a, v.b);
    assert Steps(v, x, i, 3) == Words(v.b, w.c, w.d, w.a);
  }

  lemma {:induction false} JoinSteps(w: Words, x: seq<word32>, i: nat, m: nat, n: nat)
    requires |x| == 16 && i + m + n <= 64
    ensures Steps(w, x, i, m + n) == Steps(Steps(w, x, i, m), x, i + m, n)
    decreases n
  {
    hide OneStep;
    if n > 0 { JoinSteps(w, x, i, m, n - 1); }
  }

  method Lines0(w: Words, x: seq<word32>) returns (r: Words)
    requires |x| == 16
    ensures r == Steps(w, x, 0, 4)
  {
    hide Steps, F1, F2, F3, F4, Md5Step, Plus, OneStep, Rotate, Compress, Blocks;
    var a, b, c, d := w.a, w.b, w.c, w.d;
    a := Md5Step(F1(b, c, d), a, b, Plus(x[0], 0xd76aa478), 7);
    d := Md5Step(F1(a, b, c), d, a, Plus(x[1], 0xe8c7b756), 12);
    c := Md5Step(F1(d, a, b), c, d, Plus(x[2], 0x242070db), 17);
    b := Md5Step(F1(c, d, a), b, c, Plus(x[3], 0xc1bdceee), 22);
    r := Words(a, b, c, d);
    Quad(w, r, x, 0);
  }

  method Lines4(w: Words, x: seq<word32>) returns (r: Words)
    requires |x| == 16
    ensures r == Steps(w, x, 4, 4)
  {
    hide Steps, F1, F2, F3, F4, Md5Step, Plus, OneStep, Rotate, Compress, Blocks;
    var a, b, c, d := w.a, w.b, w.c, w.d;
    a := Md5Step(F1(b, c, d), a, b, Plus(x[4], 0xf57c0faf), 7);
    d := Md5Step(F1(a, b, c), d, a, Plus(x[5], 0x4787c62a), 12);
    c := Md5Step(F1(d, a, b), c, d, Plus(x[6], 0xa8304613), 17);
    b := Md5Step(F1(c, d, a), b, c, Plus(x[7], 0xfd469501), 22);
    r := Words(a, b, c, d);
    Quad(w, r, x, 4);
  }

  method Lines8(w: Words, x: seq<word32>) returns (r: Words)
    requires |x| == 16
    ensures r == Steps(w, x, 8, 4)
  {
    hide Steps, F1, F2, F3, F4, Md5Step, Plus, OneStep, Rotate, Compress, Blocks;
    var a, b, c, d := w.a, w.b, w.c, w.d;
    a := Md5Step(F1(b, c, d), a, b, Plus(x[8], 0x698098d8), 7);
    d := Md5Step(F1(a, b, c), d, a, Plus(x[9], 0x8b44f7af), 12);
    c := Md5Step(F1(d, a, b), c, d, Plus(x[10], 0xffff5bb1), 17);
    b := Md5Step(F1(c, d, a), b, c, Plus(x[11], 0x895cd7be), 22);
    r := Words(a, b, c, d);
    Quad(w, r, x, 8);
  }

  method Lines12(w: Words, x: seq<word32>) returns (r: Words)
    requires |x| == 16
    ensures r == Steps(w, x, 12, 4)
  {
    hide Steps, F1, F2, F3, F4, Md5Step, Plus, OneStep, Rotate, Compress, Blocks;
    var a, b, c, d := w.a, w.b, w.c, w.d;
    a := Md5Step(F1(b, c, d), a, b, Plus(x[12], 0x6b901122), 7);
    d := Md5Step(F1(a, b, c), d, a, Plus(x[13], 0xfd987193), 12);
    c := Md5Step(F1(d, a, b), c, d, Plus(x[14], 0xa679438e), 17);
    b := Md5Step(F1(c, d, a), b, c, Plus(x[15], 0x49b40821), 22);
    r := Words(a, b, c, d);
    Quad(w, r, x, 12);
  }

  method Lines16(w: Words, x: seq<word32>) returns (r: Words)
    requires |x| == 16
    ensures r == Steps(w, x, 16, 4)
  {
    hide Steps, F1, F2, F3, F4, Md5Step, Plus, OneStep, Rotate, Compress, Blocks;
    var a, b, c, d := w.a, w.b, w.c, w.d;
    a := Md5Step(F2(b, c, d), a, b, Plus(x[1], 0xf61e2562), 5);
    d := Md5Step(F2(a, b, c), d, a, Plus(x[6], 0xc040b340), 9);
    c := Md5Step(F2(d, a, b), c, d, Plus(x[11], 0x265e5a51), 14);
    b := Md5Step(F2(c, d, a), b, c, Plus(x[0], 0xe9b6c7aa), 20);
    r := Words(a, b, c, d);
    Quad(w, r, x, 16);
  }

  method Lines20(w: Words, x: seq<word32>) returns (r: Words)
    requires |x| == 16
    ensures r == Steps(w, x, 20, 4)
  {
    hide Steps, F1, F2, F3, F4, Md5Step, Plus, OneStep, Rotate, Compress, Blocks;
    var a, b, c, d := w.a, w.b, w.c, w.d;
    a := Md5Step(F2(b, c, d), a, b, Plus(x[5], 0xd62f105d), 5);
    d := Md5Step(F2(a, b, c), d, a, Plus(x[10], 0x02441453), 9);
    c := Md5Step(F2(d, a, b), c, d, Plus(x[15], 0xd8a1e681), 14);
    b := Md5Step(F2(c, d, a), b, c, Plus(x[4], 0xe7d3fbc8), 20);
    r := Words(a, b, c, d);
    Quad(w, r, x, 20);
  }

  method Lines24(w: Words, x: seq<word32>) returns (r: Words)
    requires |x| == 16
    ensures r == Steps(w, x, 24, 4)
  {
    hide Steps, F1, F2, F3, F4, Md5Step, Plus, OneStep, Rotate, Compress, Blocks;
    var a, b, c, d := w.a, w.b, w.c, w.d;
    a := Md5Step(F2(b, c, d), a, b, Plus(x[9], 0x21e1cde6), 5);
    d := Md5Step(F2(a, b, c), d, a, Plus(x[14], 0xc33707d6), 9);
    c := Md5Step(F2(d, a, b), c, d, Plus(x[3], 0xf4d50d87), 14);
    b := Md5Step(F2(c, d, a), b, c, Plus(x[8], 0x455a14ed), 20);
    r := Words(a, b, c, d);
    Quad(w, r, x, 24);
  }

  method Lines28(w: Words, x: seq<word32>) returns (r: Words)
    requires |x| == 16
    ensures r == Steps(w, x, 28, 4)
  {
    hide Steps, F1, F2, F3, F4, Md5Step, Plus, OneStep, Rotate, Compress, Blocks;
    var a, b, c, d := w.a, w.b, w.c, w.d;
    a := Md5Step(F2(b, c, d), a, b, Plus(x[13], 0xa9e3e905), 5);
    d := Md5Step(F2(a, b, c), d, a, Plus(x[2], 0xfcefa3f8), 9);
    c := Md5Step(F2(d, a, b), c, d, Plus(x[7], 0x676f02d9), 14);
    b := Md5Step(F2(c, d, a), b, c, Plus(x[12], 0x8d2a4c8a), 20);
    r := Words(a, b, c, d);
    Quad(w, r, x, 28);
  }

  method Lines32(w: Words, x: seq<word32>) returns (r: Words)
    requires |x| == 16
    ensures r == Steps(w, x, 32, 4)
  {
    hide Steps, F1, F2, F3, F4, Md5Step, Plus, OneStep, Rotate, Compress, Blocks;
    var a, b, c, d := w.a, w.b, w.c, w.d;
    a := Md5Step(F3(b, c, d), a, b, Plus(x[5], 0xfffa3942), 4);
    d := Md5Step(F3(a, b, c), d, a, Plus(x[8], 0x8771f681), 11);
    c := Md5Step(F3(d, a, b), c, d, Plus(x[11], 0x6d9d6122), 16);
    b := Md5Step(F3(c, d, a), b, c, Plus(x[14], 0xfde5380c), 23);
    r := Words(a, b, c, d);
    Quad(w, r, x, 32);
  }

  method Lines36(w: Words, x: seq<word32>) returns (r: Words)
    requires |x| == 16
    ensures r == Steps(w, x, 36, 4)
  {
    hide Steps, F1, F2, F3, F4, Md5Step, Plus, OneStep, Rotate, Compress, Blocks;
    var a, b, c, d := w.a, w.b, w.c, w.d;
    a := Md5Step(F3(b, c, d), a, b, Plus(x[1], 0xa4beea44), 4);
    d := Md5Step(F3(a, b, c), d, a, Plus(x[4], 0x4bdecfa9), 11);
    c := Md5Step(F3(d, a, b), c, d, Plus(x[7], 0xf6bb4b60), 16);
    b := Md5Step(F3(c, d, a), b, c, Plus(x[10], 0xbebfbc70), 23);
    r := Words(a, b, c, d);
    Quad(w, r, x, 36);
  }

  method Lines40(w: Words, x: seq<word32>) returns (r: Words)
    requires |x| == 16
    ensures r == Steps(w, x, 40, 4)
  {
    hide Steps, F1, F2, F3, F4, Md5Step, Plus, OneStep, Rotate, Compress, Blocks;
    var a, b, c, d := w.a, w.b, w.c, w.d;
    a := Md5Step(F3(b, c, d), a, b, Plus(x[13], 0x289b7ec6), 4);
    d := Md5Step(F3(a, b, c), d, a, Plus(x[0], 0xeaa127fa), 11);
    c := Md5Step(F3(d, a, b), c, d, Plus(x[3], 0xd4ef3085), 16);
    b := Md5Step(F3(c, d, a), b, c, Plus(x[6], 0x04881d05), 23);
    r := Words(a, b, c, d);
    Quad(w, r, x, 40);
  }

  method Lines44(w: Words, x: seq<word32>) returns (r: Words)
    requires |x| == 16
    ensures r == Steps(w, x, 44, 4)
  {
    hide Steps, F1, F2, F3, F4, Md5Step, Plus, OneStep, Rotate, Compress, Blocks;
    var a, b, c, d := w.a, w.b, w.c, w.d;
    a := Md5Step(F3(b, c, d), a, b, Plus(x[9], 0xd9d4d039), 4);
    d := Md5Step(F3(a, b, c), d, a, Plus(x[12], 0xe6db99e5), 11);
    c := Md5Step(F3(d, a, b), c, d, Plus(x[15], 0x1fa27cf8), 16);
    b := Md5Step(F3(c, d, a), b, c, Plus(x[2], 0xc4ac5665), 23);
    r := Words(a, b, c, d);
    Quad(w, r, x, 44);
  }

  method Lines48(w: Words, x: seq<word32>) returns (r: Words)
    requires |x| == 16
    ensures r == Steps(w, x, 48, 4)
  {
    hide Steps, F1, F2, F3, F4, Md5Step, Plus, OneStep, Rotate, Compress, Blocks;
    var a, b, c, d := w.a, w.b, w.c, w.d;
    a := Md5Step(F4(b, c, d), a, b, Plus(x[0], 0xf4292244), 6);
    d := Md5Step(F4(a, b, c), d, a, Plus(x[7], 0x432aff97), 10);
    c := Md5Step(F4(d, a, b), c, d, Plus(x[14], 0xab9423a7), 15);
    b := Md5Step(F4(c, d, a), b, c, Plus(x[5], 0xfc93a039), 21);
    r := Words(a, b, c, d);
    Quad(w, r, x, 48);
  }

  method Lines52(w: Words, x: seq<word32>) returns (r: Words)
    requires |x| == 16
    ensures r == Steps(w, x, 52, 4)
  {
    hide Steps, F1, F2, F3, F4, Md5Step, Plus, OneStep, Rotate, Compress, Blocks;
    var a, b, c, d := w.a, w.b, w.c, w.d;
    a := Md5Step(F4(b, c, d), a, b, Plus(x[12], 0x655b59c3), 6);
    d := Md5Step(F4(a, b, c), d, a, Plus(x[3], 0x8f0ccc92), 10);
    c := Md5Step(F4(d, a, b), c, d, Plus(x[10], 0xffeff47d), 15);
    b := Md5Step(F4(c, d, a), b, c, Plus(x[1], 0x85845dd1), 21);
    r := Words(a, b, c, d);
    Quad(w, r, x, 52);
  }

  method Lines56(w: Words, x: seq<word32>) returns (r: Words)
    requires |x| == 16
    ensures r == Steps(w, x, 56, 4)
  {
    hide Steps, F1, F2, F3, F4, Md5Step, Plus, OneStep, Rotate, Compress, Blocks;
    var a, b, c, d := w.a, w.b, w.c, w.d;
    a := Md5Step(F4(b, c, d), a, b, Plus(x[8], 0x6fa87e4f), 6);
    d := Md5Step(F4(a, b, c), d, a, Plus(x[15], 0xfe2ce6e0), 10);
    c := Md5Step(F4(d, a, b), c, d, Plus(x[6], 0xa3014314), 15);
    b := Md5Step(F4(c, d, a), b, c, Plus(x[13], 0x4e0811a1), 21);
    r := Words(a, b, c, d);
    Quad(w, r, x, 56);
  }

  method Lines60(w: Words, x: seq<word32>) returns (r: Words)
    requires |x| == 16
    ensures r == Steps(w, x, 60, 4)
  {
    hide Steps, F1, F2, F3, F4, Md5Step, Plus, OneStep, Rotate, Compress, Blocks;
    var a, b, c, d := w.a, w.b, w.c, w.d;
    a := Md5Step(F4(b, c, d), a, b, Plus(x[4], 0xf7537e82), 6);
    d := Md5Step(F4(a, b, c), d, a, Plus(x[11], 0xbd3af235), 10);
    c := Md5Step(F4(d, a, b), c, d, Plus(x[2], 0x2ad7d2bb), 15);
    b := Md5Step(F4(c, d, a), b, c, Plus(x[9], 0xeb86d391), 21);
    r := Words(a, b, c, d);
    Quad(w, r, x, 60);
  }

  /** GET_32BIT_LSB_FIRST over the block. */
  method DecodeBlock(inext: array<byte>) returns (x: seq<word32>)
    requires inext.Length == 64
    ensures x == Decode(inext[..])
  {
    hide GetLsb;
    var in' := new word32[16];
    var i := 0;
    while i < 16
      invariant 0 <= i <= 16
      invariant forall j :: 0 <= j < i ==> in'[j] == Decode(inext[..])[j]
    {
      assert inext[4 * i..4 * i + 4] == inext[..][4 * i..4 * i + 4];
      in'[i] := GetLsb(inext[4 * i..4 * i + 4]);
      i := i + 1;
    }
    x := in'[..];
  }

  /** MD5Transform */
  method Transform(w: Words, inext: array<byte>) returns (r: Words)
    requires inext.Length == 64
    ensures r == Compress(w, inext[..])
  {
    hide Steps, Decode;
    var x := DecodeBlock(inext);
    r := Lines0(w, x);
    r := Lines4(r, x);
    JoinSteps(w, x, 0, 4, 4);
    r := Lines8(r, x);
    JoinSteps(w, x, 0, 8, 4);
    r := Lines12(r, x);
    JoinSteps(w, x, 0, 12, 4);
    r := Lines16(r, x);
    JoinSteps(w, x, 0, 16, 4);
    r := Lines20(r, x);
    JoinSteps(w, x, 0, 20, 4);
    r := Lines24(r, x);
    JoinSteps(w, x, 0, 24, 4);
    r := Lines28(r, x);
    JoinSteps(w, x, 0, 28, 4);
    r := Lines32(r, x);
    JoinSteps(w, x, 0, 32, 4);
    r := Lines36(r, x);
    JoinSteps(w, x, 0, 36, 4);
    r := Lines40(r, x);
    JoinSteps(w, x, 0, 40, 4);
    r := Lines44(r, x);
    JoinSteps(w, x, 0, 44, 4);
    r := Lines48(r, x);
    JoinSteps(w, x, 0, 48, 4);
    r := Lines52(r, x);
    JoinSteps(w, x, 0, 52, 4);
    r := Lines56(r, x);
    JoinSteps(w, x, 0, 56, 4);
    r := Lines60(r, x);
    JoinSteps(w, x, 0, 60, 4);
    r := AddWords(w, r);
  }

  // ---------- the whole message, sections 3.1 to 3.3 and 3.5 ----------

  /** The registers after n blocks of s. */
  function Blocks(s: seq<byte>, n: nat): Words
    requires 64 * n <= |s|
    decreases n
  {
    if n == 0 then START else Compress(Blocks(s, n - 1), s[64 * (n - 1)..64 * n])
  }

  function Zeros(n: nat): (s: seq<byte>)
    ensures |s| == n
  {
    seq(n, _ => 0)
  }

  /** The zero octets after the first octet of padding: the fewest that leave 8 for the length. */
  function ZeroCount(n: nat): (k: nat)
    ensures (n + 1 + k) % 64 == 56 && k < 64
  {
    (119 - n % 64) % 64
  }

  function LittleEndian(v: nat, len: nat): (s: seq<byte>)
    ensures |s| == len
  {
    if len == 0 then [] else [Octet(v % 256)] + LittleEndian(v / 256, len - 1)
  }

  lemma PaddedLength(n: nat)
    ensures (n + 1 + ZeroCount(n) + 8) % 64 == 0
  {
    hide ZeroCount;
    var k := n + 1 + ZeroCount(n);
    assert k + 8 == 64 * (k / 64) + 64;
  }

  function Padded(m: seq<byte>): (s: seq<byte>)
    ensures |s| % 64 == 0
  {
    PaddedLength(|m|);
    m + [0x80] + Zeros(ZeroCount(|m|)) + LittleEndian(8 * |m| % 0x1_0000_0000_0000_0000, 8)
  }

  function Written(w: Words): seq<byte> { PutLsb(w.a) + PutLsb(w.b) + PutLsb(w.c) + PutLsb(w.d) }

  function Digest(m: seq<byte>): seq<byte> {
    var s := Padded(m);
    Written(Blocks(s, |s| / 64))
  }

  /** A digest is written low octet first, and the registers start as in section 3.3. */
  lemma WrittenOctets(k: seq<byte>)
    requires |k| == 16
    ensures Written(Words(Join(k[3], k[2], k[1], k[0]), Join(k[7], k[6], k[5], k[4]),
                          Join(k[11], k[10], k[9], k[8]), Join(k[15], k[14], k[13], k[12]))) == k
    ensures START == Words(Join(0x67, 0x45, 0x23, 0x01), Join(0xef, 0xcd, 0xab, 0x89),
                           Join(0x98, 0xba, 0xdc, 0xfe), Join(0x10, 0x32, 0x54, 0x76))
  {
    StartWords();
    CutJoin(k[3], k[2], k[1], k[0]);
    CutJoin(k[7], k[6], k[5], k[4]);
    CutJoin(k[11], k[10], k[9], k[8]);
    CutJoin(k[15], k[14], k[13], k[12]);
    hide Join, Cut, START;
  }

  lemma StartWords()
    ensures START == Words(Join(0x67, 0x45, 0x23, 0x01), Join(0xef, 0xcd, 0xab, 0x89),
                           Join(0x98, 0xba, 0xdc, 0xfe), Join(0x10, 0x32, 0x54, 0x76))
  {
  }

  lemma BlocksStart()
    ensures Blocks([], 0) == START
  {
  }

  lemma {:induction false} BlocksOfPrefix(s: seq<byte>, t: seq<byte>, n: nat)
    requires 64 * n <= |s| && 64 * n <= |t| && s[..64 * n] == t[..64 * n]
    ensures Blocks(s, n) == Blocks(t, n)
    decreases n
  {
    hide Compress;
    if n > 0 {
      assert s[..64 * (n - 1)] == s[..64 * n][..64 * (n - 1)];
      assert t[..64 * (n - 1)] == t[..64 * n][..64 * (n - 1)];
      BlocksOfPrefix(s, t, n - 1);
      assert s[64 * (n - 1)..64 * n] == s[..64 * n][64 * (n - 1)..];
      assert t[64 * (n - 1)..64 * n] == t[..64 * n][64 * (n - 1)..];
    }
  }

  // ---------- the counter ----------

  /** PUT_32BIT_LSB_FIRST of a number */
  function PutWord(v: nat): (s: seq<byte>)
    requires v < W
    ensures |s| == 4
  {
    [Octet(v % 256), Octet(v / 256 % 256), Octet(v / 256 / 256 % 256), Octet(v / 256 / 256 / 256)]
  }

  lemma {:induction false} LittleEndianJoin(lo: nat, hi: nat, j: nat, k: nat, b: nat)
    requires b == Numbers.Pow(256, j) && lo < b
    ensures b * hi >= 0 && LittleEndian(lo + b * hi, j + k) == LittleEndian(lo, j) + LittleEndian(hi, k)
    decreases j
  {
    if j == 0 {
      assert LittleEndian(lo, j) == [];
    } else {
      Numbers.PowPositive(256, j - 1);
      var c := Numbers.Pow(256, j - 1);
      DigitOff(lo, hi, c);
      LittleEndianJoin(lo / 256, hi, j - 1, k, c);
      assert j + k - 1 == j - 1 + k;
      hide Octet;
    }
  }

  lemma DigitOff(lo: nat, hi: nat, c: nat)
    requires c > 0
    ensures 256 * c * hi >= 0 && c * hi >= 0
    ensures (lo + 256 * c * hi) % 256 == lo % 256 && (lo + 256 * c * hi) / 256 == lo / 256 + c * hi
  {
    var p: nat := c * hi;
    assert 256 * c * hi == 256 * p;
    assert lo + 256 * p == 256 * (lo / 256 + p) + lo % 256;
  }

  /** The two words of the counter, written out, are the 64 bits of the length. */
  lemma CounterOctets(lo: nat, hi: nat)
    requires lo < W && hi < W
    ensures LittleEndian(lo + 0x1_0000_0000 * hi, 8) == PutWord(lo) + PutWord(hi)
  {
    assert Numbers.Pow(256, 4) == W by {
      assert Numbers.Pow(256, 2) == 0x1_0000 by { assert Numbers.Pow(256, 1) == 256; }
      assert Numbers.Pow(256, 3) == 0x100_0000;
    }
    LittleEndianJoin(lo, hi, 4, 4, W);
    PutWordIs(lo);
    PutWordIs(hi);
  }

  lemma PutWordIs(v: nat)
    requires v < W
    ensures LittleEndian(v, 4) == PutWord(v)
  {
    hide Octet;
    var v1, v2, v3 := v / 256, v / 256 / 256, v / 256 / 256 / 256;
    assert v3 % 256 == v3;
    assert LittleEndian(v3, 1) == [Octet(v3)] by { assert LittleEndian(v3 / 256, 0) == []; }
    assert LittleEndian(v2, 2) == [Octet(v2 % 256), Octet(v3)];
    assert LittleEndian(v1, 3) == [Octet(v1 % 256), Octet(v2 % 256), Octet(v3)];
  }

  /** Eight times the length, modulo 2^64, in two words. */
  predicate Counts(lo: nat, hi: nat, n: nat) {
    lo < W && hi < W && lo + 0x1_0000_0000 * hi == 8 * n % 0x1_0000_0000_0000_0000
  }

  lemma CountsNothing()
    ensures Counts(0, 0, 0)
  {
  }

  /** The carry is seen from the low word getting smaller. */
  lemma CounterAdds(lo: nat, hi: nat, n: nat, len: nat, lo': nat, hi': nat)
    requires Counts(lo, hi, n) && len < W
    requires lo' == (lo + 8 * len % W) % W
    requires hi' == ((if lo' < lo then (hi + 1) % W else hi) + len / 0x2000_0000) % W
    ensures Counts(lo', hi', n + len)
  {
    var part, top, wrap := 8 * len % W, len / 0x2000_0000, 8 * n / 0x1_0000_0000_0000_0000;
    BitsOfLength(len);
    BitsBefore(lo, hi, n);
    var carry := if lo' < lo then 1 else 0;
    CarrySeen(lo, part, lo');
    HighWord(hi, carry, top, hi');
    hide Counts;
    Recount(lo + part, hi + carry + top, lo', carry, hi', wrap, n, len, part, top, lo, hi);
  }

  lemma BitsOfLength(len: nat)
    ensures 8 * len == 8 * len % W + 0x1_0000_0000 * (len / 0x2000_0000)
  {
  }

  lemma BitsBefore(lo: nat, hi: nat, n: nat)
    requires Counts(lo, hi, n)
    ensures lo < W && hi < W
    ensures 8 * n == lo + 0x1_0000_0000 * hi + 0x1_0000_0000_0000_0000 * (8 * n / 0x1_0000_0000_0000_0000)
  {
  }

  lemma CarrySeen(lo: nat, part: nat, lo': nat)
    requires lo < W && part < W && lo' == (lo + part) % W
    ensures lo + part == lo' + 0x1_0000_0000 * (if lo' < lo then 1 else 0)
  {
  }

  lemma HighWord(hi: nat, carry: nat, top: nat, hi': nat)
    requires hi < W && carry <= 1 && hi' == ((if carry == 1 then (hi + 1) % W else hi) + top) % W
    ensures hi + carry + top == hi' + 0x1_0000_0000 * ((hi + carry + top) / 0x1_0000_0000)
  {
    if hi + carry == W {
      assert (hi + carry + top) % W == top % W == hi';
    }
  }

  lemma Recount(low: nat, high: nat, lo': nat, carry: nat, hi': nat, wrap: nat,
                n: nat, len: nat, part: nat, top: nat, lo: nat, hi: nat)
    requires lo' < W && hi' < W && low == lo' + 0x1_0000_0000 * carry && low == lo + part && high == hi + carry + top
    requires high == hi' + 0x1_0000_0000 * (high / 0x1_0000_0000)
    requires 8 * len == part + 0x1_0000_0000 * top
    requires 8 * n == lo + 0x1_0000_0000 * hi + 0x1_0000_0000_0000_0000 * wrap
    ensures Counts(lo', hi', n + len)
  {
    var q := high / 0x1_0000_0000;
    assert 8 * (n + len) == (lo' + 0x1_0000_0000 * hi') + 0x1_0000_0000_0000_0000 * (wrap + q);
  }

  lemma CounterOffset(lo: nat, hi: nat, n: nat)
    requires Counts(lo, hi, n)
    ensures lo / 8 % 64 == n % 64
  {
    var k := hi + 0x1_0000_0000 * (8 * n / 0x1_0000_0000_0000_0000);
    assert lo == 8 * (n - 0x2000_0000 * k);
    OffsetBy(lo / 8, n, 0x80_0000 * k);
  }

  lemma OffsetBy(a: nat, n: nat, j: nat)
    requires n == a + 64 * j
    ensures a % 64 == n % 64
  {
  }

  // ---------- the context ----------

  class Context {
    var buf: Words
    var lo: nat
    var hi: nat
    /** ctx->in */
    var pending: array<byte>

    /** The context has been given exactly the message m. */
    ghost predicate Holds(m: seq<byte>)
      reads this, pending
    {
      Counts(lo, hi, |m|) && Stands(m, |m| / 64, |m| % 64)
    }

    /** n blocks of s are folded into the registers, and the next t octets wait. */
    ghost predicate Stands(s: seq<byte>, n: nat, t: nat)
      reads this, pending
    {
      && pending.Length == 64 && t <= 64 && 64 * n + t <= |s|
      && buf == Blocks(s, n) && pending[..t] == s[64 * n..64 * n + t]
    }

    /** MD5Init */
    constructor ()
      ensures Holds([]) && fresh(pending)
    {
      hide Blocks, START, Counts;
      buf := START;
      lo, hi := 0, 0;
      pending := new byte[64];
      new;
      CountsNothing();
      BlocksStart();
      assert pending[..0] == [];
      assert Stands([], 0, 0);
    }

    /** memcpy behind the octets that wait. */
    method Append(ghost s: seq<byte>, ghost n: nat, t: nat, part: seq<byte>)
      requires Stands(s, n, t) && t + |part| <= 64
      requires 64 * n + t + |part| <= |s| && part == s[64 * n + t..64 * n + t + |part|]
      modifies pending
      ensures Stands(s, n, t + |part|)
    {
      hide Blocks;
      forall k | 0 <= k < |part| {
        pending[t + k] := part[k];
      }
      assert pending[..t] == old(pending[..t]);
      assert pending[..t + |part|] == pending[..t] + part;
      assert s[64 * n..64 * n + t] + part == s[64 * n..64 * n + t + |part|];
    }

    /** A full block goes through the transformation. */
    method Fold(ghost s: seq<byte>, ghost n: nat)
      requires Stands(s, n, 64)
      modifies `buf
      ensures Stands(s, n + 1, 0)
    {
      hide Compress;
      assert pending[..] == pending[..64] == s[64 * n..64 * (n + 1)];
      buf := Transform(buf, pending);
    }

    /** MD5Update */
    method Update(data: seq<byte>, ghost m: seq<byte>)
      requires Holds(m) && |data| < W
      modifies this, pending
      ensures Holds(m + data) && pending == old(pending)
    {
      hide Blocks, Counts;
      ghost var s, n := m + data, |m| / 64;
      StandsInLonger(m, s);
      var t := lo;
      lo := (t + 8 * |data| % W) % W;
      if lo < t {
        hi := (hi + 1) % W;
      }
      hi := (hi + |data| / 0x2000_0000) % W;
      CounterAdds(t, old(hi), |m|, |data|, lo, hi);
      CounterOffset(t, old(hi), |m|);
      t := t / 8 % 64;
      assert Stands(s, n, t);
      hide Stands;
      UpdateRest(s, n, t, data);
    }

    lemma StandsWithin(s: seq<byte>, n: nat, t: nat)
      requires Stands(s, n, t)
      ensures pending.Length == 64 && 64 * n + t <= |s|
    {
    }

    /** The blocks of MD5Update behind the one that was begun. */
    method UpdateBlocks(ghost s: seq<byte>, ghost from: nat, data: seq<byte>)
      requires Stands(s, from, 0) && |s| == 64 * from + |data| && data == s[64 * from..]
      modifies `buf, pending
      ensures Stands(s, |s| / 64, |s| % 64)
    {
      hide Blocks, Stands;
      StandsWithin(s, from, 0);
      var p := 0;
      ghost var n := from;
      while |data| - p >= 64
        invariant 0 <= p <= |data| && 64 * n == 64 * from + p && Stands(s, n, 0)
        invariant pending == old(pending)
        decreases |data| - p
      {
        SliceOfRest(s, 64 * from, data, p, p + 64);
        Append(s, n, 0, data[p..p + 64]);
        Fold(s, n);
        p, n := p + 64, n + 1;
      }
      SliceOfRest(s, 64 * from, data, p, |data|);
      Append(s, n, 0, data[p..]);
    }

    /** What MD5Update does once the counter is up to date. */
    method UpdateRest(ghost s: seq<byte>, ghost from: nat, t: nat, data: seq<byte>)
      requires Stands(s, from, t) && t < 64 && |s| == 64 * from + t + |data| && data == s[64 * from + t..]
      modifies `buf, pending
      ensures Stands(s, |s| / 64, |s| % 64)
    {
      hide Blocks, Stands;
      StandsWithin(s, from, t);
      if t == 0 {
        UpdateBlocks(s, from, data);
      } else if |data| < 64 - t {
        Append(s, from, t, data);
      } else {
        SliceOfRest(s, 64 * from + t, data, 0, 64 - t);
        Append(s, from, t, data[..64 - t]);
        Fold(s, from);
        SliceOfRest(s, 64 * from + t, data, 64 - t, |data|);
        UpdateBlocks(s, from + 1, data[64 - t..]);
      }
    }

    /** The padding of MD5Final up to the length. */
    method Pad(ghost s: seq<byte>, ghost n: nat, count: nat)
      requires Stands(s, n, count) && count < 64 && PaddedFrom(s, 64 * n + count)
      requires |s| == 64 * (if count < 56 then n + 1 else n + 2)
      modifies `buf, pending
      ensures Stands(s, |s| / 64 - 1, 56)
    {
      hide Blocks, Stands;
      Append(s, n, count, [0x80]);
      var left := 64 - 1 - count;
      if left < 8 {
        ZerosWithin(s, 64 * n + count, 64 * n + count + 1, left);
        Append(s, n, count + 1, Zeros(left));
        Fold(s, n);
        ZerosWithin(s, 64 * n + count, 64 * (n + 1), 56);
        Append(s, n + 1, 0, Zeros(56));
      } else {
        ZerosWithin(s, 64 * n + count, 64 * n + count + 1, left - 8);
        Append(s, n, count + 1, Zeros(left - 8));
      }
    }

    /** The length and the last transformation. */
    method PutLength(ghost s: seq<byte>, ghost n: nat)
      requires Stands(s, n, 56) && |s| == 64 * n + 64 && lo < W && hi < W
      requires s[64 * n + 56..64 * n + 60] == PutWord(lo) && s[64 * n + 60..] == PutWord(hi)
      modifies `buf, pending
      ensures buf == Blocks(s, n + 1)
    {
      hide Blocks, Stands, PutWord;
      Append(s, n, 56, PutWord(lo));
      Append(s, n, 60, PutWord(hi));
      Fold(s, n);
      StandsIsFolded(s, n + 1, 0);
    }

    /** MD5Final */
    method Final(ghost m: seq<byte>) returns (digest: seq<byte>)
      requires Holds(m)
      modifies `buf, pending
      ensures digest == Digest(m)
    {
      hide Blocks, Counts, LittleEndian, PutWord, Written, Octet, Padded;
      ghost var s, n := Padded(m), |m| / 64;
      CounterOffset(lo, hi, |m|);
      CounterWritten(lo, hi, |m|);
      PaddedParts(m, PutWord(lo), PutWord(hi));
      StandsInLonger(m, s);
      var count := lo / 8 % 64;
      assert Stands(s, n, count);
      hide Stands;
      Pad(s, n, count);
      PutLength(s, |s| / 64 - 1);
      digest := Written(buf);
    }

    lemma StandsIsFolded(s: seq<byte>, n: nat, t: nat)
      requires Stands(s, n, t)
      ensures buf == Blocks(s, n)
    {
    }

    /** What is folded and pending is also a prefix of a longer message. */
    lemma StandsInLonger(m: seq<byte>, s: seq<byte>)
      requires Holds(m) && m <= s
      ensures Stands(s, |m| / 64, |m| % 64)
    {
      hide Blocks, Counts;
      var n, t := |m| / 64, |m| % 64;
      assert s[..64 * n] == m[..64 * n];
      BlocksOfPrefix(m, s, n);
      assert s[64 * n..64 * n + t] == m[64 * n..64 * n + t];
    }
  }

  /** An octet 0x80 at p, and zeros from there up to the last eight octets. */
  ghost predicate PaddedFrom(s: seq<byte>, p: nat) {
    p + 9 <= |s| && s[p] == 0x80 && forall i :: p < i < |s| - 8 ==> s[i] == 0
  }

  lemma ZerosWithin(s: seq<byte>, p: nat, from: nat, n: nat)
    requires PaddedFrom(s, p) && p < from && from + n <= |s| - 8
    ensures s[from..from + n] == Zeros(n)
  {
  }

  lemma PaddedParts(m: seq<byte>, low: seq<byte>, high: seq<byte>)
    requires |low| == 4 && |high| == 4 && LittleEndian(8 * |m| % 0x1_0000_0000_0000_0000, 8) == low + high
    ensures var s, n, count := Padded(m), |m| / 64, |m| % 64;
            && m <= s && PaddedFrom(s, |m|) && |s| == 64 * (if count < 56 then n + 1 else n + 2)
            && s[|s| - 8..|s| - 4] == low && s[|s| - 4..] == high
  {
    hide LittleEndian;
    var k := ZeroCount(|m|);
    ZeroCountCases(|m|);
    hide ZeroCount;
    PartsOf(Padded(m), m, k, low, high);
  }

  lemma ZeroCountCases(n: nat)
    ensures n + 1 + ZeroCount(n) + 8 == 64 * (if n % 64 < 56 then n / 64 + 1 else n / 64 + 2)
  {
    var count := n % 64;
    assert n == 64 * (n / 64) + count;
    assert ZeroCount(n) == if count < 56 then 55 - count else 119 - count;
  }

  lemma PartsOf(s: seq<byte>, m: seq<byte>, k: nat, low: seq<byte>, high: seq<byte>)
    requires |low| == 4 && |high| == 4 && s == m + [0x80] + Zeros(k) + (low + high)
    ensures m <= s && PaddedFrom(s, |m|) && s[|s| - 8..|s| - 4] == low && s[|s| - 4..] == high
  {
    assert s[..|m|] == m;
    assert s[|s| - 8..] == low + high;
  }

  lemma SliceOfRest(s: seq<byte>, o: nat, data: seq<byte>, p: nat, q: nat)
    requires o <= |s| && data == s[o..] && p <= q <= |data|
    ensures data[p..q] == s[o + p..o + q]
  {
  }

  lemma CounterWritten(lo: nat, hi: nat, n: nat)
    requires Counts(lo, hi, n)
    ensures lo < W && hi < W
    ensures LittleEndian(8 * n % 0x1_0000_0000_0000_0000, 8) == PutWord(lo) + PutWord(hi)
  {
    CounterOctets(lo, hi);
  }

  // ---------- messages in pieces ----------

  function Joined(pieces: seq<seq<byte>>): seq<byte> {
    if pieces == [] then [] else Joined(pieces[..|pieces| - 1]) + pieces[|pieces| - 1]
  }

  /** Any way of cutting a message into updates gives the digest of the whole. */
  method DigestOf(pieces: seq<seq<byte>>) returns (digest: seq<byte>)
    requires forall i :: 0 <= i < |pieces| ==> |pieces[i]| < W
    ensures digest == Digest(Joined(pieces))
  {
    hide Digest, Counts, Blocks;
    var ctx := new Context();
    var i := 0;
    while i < |pieces|
      invariant 0 <= i <= |pieces| && ctx.Holds(Joined(pieces[..i]))
      invariant fresh(ctx) && fresh(ctx.pending)
    {
      ctx.Update(pieces[i], Joined(pieces[..i]));
      assert pieces[..i + 1][..i] == pieces[..i];
      i := i + 1;
    }
    assert pieces[..i] == pieces;
    digest := ctx.Final(Joined(pieces));
  }
}
