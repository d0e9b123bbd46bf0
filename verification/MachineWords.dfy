/** The words and blocks that the ciphers and checksums work on, and octets as numbers. */
module MachineWords {
  import opened Bytes

  type word32 = bv32

  function Xor(a: word32, b: word32): word32 { a ^ b }

  lemma XorOperator(a: word32, b: word32, c: word32, d: word32)
    ensures a ^ b == b ^ a && (a ^ b) ^ c == a ^ (b ^ c) && a ^ a == 0 && a ^ 0 == a && 0 ^ a == a
    ensures (a ^ b) ^ (c ^ d) == (a ^ c) ^ (b ^ d)
  {
  }

  lemma XorFacts(a: word32, b: word32, c: word32)
    ensures Xor(a, b) == Xor(b, a) && Xor(Xor(a, b), c) == Xor(a, Xor(b, c))
    ensures Xor(a, a) == 0 && Xor(a, 0) == a && Xor(0, a) == a
  {
    XorOperator(a, b, c, 0);
  }

  lemma XorExchange(a: word32, b: word32, c: word32, d: word32)
    ensures Xor(Xor(a, b), Xor(c, d)) == Xor(Xor(a, c), Xor(b, d))
  {
    XorFacts(a, b, Xor(c, d));
    XorFacts(b, c, d);
    XorFacts(c, b, d);
    XorFacts(a, c, Xor(b, d));
    hide Xor;
  }

  lemma XorCancels(a: word32, b: word32)
    ensures Xor(Xor(a, b), b) == a && Xor(b, Xor(a, b)) == a && Xor(a, Xor(a, b)) == b
  {
  }

  /** Addition modulo 2^32. */
  function Plus(a: word32, b: word32): word32 { a + b }

  /** The two words a block cipher works on. */
  datatype Block = Block(l: word32, r: word32)

  function Swap(x: Block): Block { Block(x.r, x.l) }

  function XorBlock(a: Block, b: Block): Block { Block(Xor(a.l, b.l), Xor(a.r, b.r)) }

  // ---------- words in memory (getput.h) ----------

  function Join(a: byte, b: byte, c: byte, d: byte): word32 {
    (a as word32 << 24) | (b as word32 << 16) | (c as word32 << 8) | (d as word32)
  }

  function Cut(w: word32, n: word32): byte
    requires n <= 32
  {
    ((w >> n) & 0xff) as byte
  }

  lemma JoinCut(w: word32)
    ensures Join(Cut(w, 24), Cut(w, 16), Cut(w, 8), Cut(w, 0)) == w
  {
  }

  lemma CutJoin(a: byte, b: byte, c: byte, d: byte)
    ensures Cut(Join(a, b, c, d), 24) == a
    ensures Cut(Join(a, b, c, d), 16) == b
    ensures Cut(Join(a, b, c, d), 8) == c
    ensures Cut(Join(a, b, c, d), 0) == d
  {
  }

  /** GET_32BIT_LSB_FIRST */
  function GetLsb(s: seq<byte>): word32
    requires |s| >= 4
  {
    Join(s[3], s[2], s[1], s[0])
  }

  /** PUT_32BIT_LSB_FIRST */
  function PutLsb(w: word32): (s: seq<byte>)
    ensures |s| == 4
  {
    [Cut(w, 0), Cut(w, 8), Cut(w, 16), Cut(w, 24)]
  }

  /** GET_32BIT */
  function GetMsb(s: seq<byte>): word32
    requires |s| >= 4
  {
    Join(s[0], s[1], s[2], s[3])
  }

  /** PUT_32BIT */
  function PutMsb(w: word32): (s: seq<byte>)
    ensures |s| == 4
  {
    [Cut(w, 24), Cut(w, 16), Cut(w, 8), Cut(w, 0)]
  }

  lemma WordRoundTrips(w: word32, s: seq<byte>)
    requires |s| == 4
    ensures GetLsb(PutLsb(w)) == GetMsb(PutMsb(w)) == w
    ensures PutLsb(GetLsb(s)) == PutMsb(GetMsb(s)) == s
  {
    JoinCut(w);
    CutJoin(s[0], s[1], s[2], s[3]);
    CutJoin(s[3], s[2], s[1], s[0]);
    hide Join, Cut;
  }

  // ---------- octets and numbers ----------

  function Bit(flag: bool, b: byte): byte { if flag then b else 0 }

  function Weight(flag: bool, w: nat): nat { if flag then w else 0 }

  function OctetOf(h: bool, g: bool, f: bool, e: bool, d: bool, c: bool, b: bool, a: bool): byte {
    Bit(h, 0x80) | Bit(g, 0x40) | Bit(f, 0x20) | Bit(e, 0x10) | Bit(d, 0x08) | Bit(c, 0x04) | Bit(b, 0x02) | Bit(a,
        0x01)
  }

  predicate Has(x: byte, b: byte) { x & b == b }

  /** n without the binary digit of weight w. */
  function Rest(n: nat, w: nat): nat { if n >= w then n - w else n }

  /** The octet whose value is n. */
  function Octet(n: nat): byte
    requires n < 256
  {
    var n6 := Rest(n, 128);
    var n5 := Rest(n6, 64);
    var n4 := Rest(n5, 32);
    var n3 := Rest(n4, 16);
    var n2 := Rest(n3, 8);
    var n1 := Rest(n2, 4);
    var n0 := Rest(n1, 2);
    OctetOf(n >= 128, n6 >= 64, n5 >= 32, n4 >= 16, n3 >= 8, n2 >= 4, n1 >= 2, n0 >= 1)
  }

  /** The value of an octet. */
  function Value(x: byte): (n: nat)
    ensures n < 256
  {
    Weight(Has(x, 0x80), 128) + Weight(Has(x, 0x40), 64) + Weight(Has(x, 0x20), 32) + Weight(Has(x, 0x10), 16) +
    Weight(Has(x, 0x08), 8) + Weight(Has(x, 0x04), 4) + Weight(Has(x, 0x02), 2) + Weight(Has(x, 0x01), 1)
  }

  /** It is the number the octet stands for. */
  lemma ValueIsNumber(x: byte)
    ensures Value(x) == x as nat
  {
  }

  lemma OctetBits(h: bool, g: bool, f: bool, e: bool, d: bool, c: bool, b: bool, a: bool)
    ensures var x := OctetOf(h, g, f, e, d, c, b, a);
            && Has(x, 0x80) == h && Has(x, 0x40) == g && Has(x, 0x20) == f && Has(x, 0x10) == e
            && Has(x, 0x08) == d && Has(x, 0x04) == c && Has(x, 0x02) == b && Has(x, 0x01) == a
  {
  }

  lemma ValueOfBits(h: bool, g: bool, f: bool, e: bool, d: bool, c: bool, b: bool, a: bool)
    ensures Value(OctetOf(h, g, f, e, d, c, b, a)) ==
            Weight(h, 128) + Weight(g, 64) + Weight(f, 32) + Weight(e, 16) +
            Weight(d, 8) + Weight(c, 4) + Weight(b, 2) + Weight(a, 1)
  {
    hide OctetOf, Has, Weight;
    OctetBits(h, g, f, e, d, c, b, a);
  }

  lemma TakeWeight(n: nat, w: nat)
    ensures n == Weight(n >= w, w) + Rest(n, w)
    ensures n < 2 * w ==> Rest(n, w) < w
  {
  }

  lemma ValueOfOctet(n: nat)
    requires n < 256
    ensures Value(Octet(n)) == n
  {
    hide OctetOf, Value, Weight, Rest;
    var n6 := Rest(n, 128);
    var n5 := Rest(n6, 64);
    var n4 := Rest(n5, 32);
    var n3 := Rest(n4, 16);
    var n2 := Rest(n3, 8);
    var n1 := Rest(n2, 4);
    var n0 := Rest(n1, 2);
    TakeWeight(n, 128);
    TakeWeight(n6, 64);
    TakeWeight(n5, 32);
    TakeWeight(n4, 16);
    TakeWeight(n3, 8);
    TakeWeight(n2, 4);
    TakeWeight(n1, 2);
    TakeWeight(n0, 1);
    ValueOfBits(n >= 128, n6 >= 64, n5 >= 32, n4 >= 16, n3 >= 8, n2 >= 4, n1 >= 2, n0 >= 1);
  }
}
