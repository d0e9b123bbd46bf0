/**
 Blowfish in CBC mode (blowfish.c:304-434), for any P array and S-boxes.
 */
module Blowfish {
  import opened Bytes
  import opened MachineWords
  import opened Modes

  datatype BlowfishBoxes = BlowfishBoxes(P: seq<word32>, S: seq<word32>)

  type BlowfishContext = c: BlowfishBoxes | |c.P| == 18 && |c.S| == 4 * 256
    witness BlowfishBoxes(seq(18, _ => 0), seq(1024, _ => 0))

  /** bf_F */
  function F(c: BlowfishContext, x: word32): word32 {
    Plus(Xor(Plus(c.S[0 * 256 + Cut(x, 24) as nat], c.S[1 * 256 + Cut(x, 16) as nat]),
             c.S[2 * 256 + Cut(x, 8) as nat]),
         c.S[3 * 256 + Cut(x, 0) as nat])
  }

  /** ROUND(a, b, n): the new value of a. */
  function Round(c: BlowfishContext, a: word32, b: word32, n: nat): word32
    requires n < 18
  {
    Xor(a, Xor(F(c, b), c.P[n]))
  }

  /** ROUND(yr, yl, m); ROUND(yl, yr, n). */
  function TwoRounds(c: BlowfishContext, y: Block, m: nat, n: nat): Block
    requires m < 18 && n < 18
  {
    var yr := Round(c, y.r, y.l, m);
    Block(Round(c, y.l, yr, n), yr)
  }

  /** blowfish_encrypt: the words left in output. */
  function Encipher(c: BlowfishContext, x: Block): Block {
    var y := Block(Xor(x.l, c.P[0]), x.r);
    var y := TwoRounds(c, y, 1, 2);
    var y := TwoRounds(c, y, 3, 4);
    var y := TwoRounds(c, y, 5, 6);
    var y := TwoRounds(c, y, 7, 8);
    var y := TwoRounds(c, y, 9, 10);
    var y := TwoRounds(c, y, 11, 12);
    var y := TwoRounds(c, y, 13, 14);
    var y := TwoRounds(c, y, 15, 16);
    Block(Xor(y.r, c.P[17]), y.l)
  }

  /** blowfish_decrypt. */
  function Decipher(c: BlowfishContext, x: Block): Block {
    var y := Block(Xor(x.l, c.P[17]), x.r);
    var y := TwoRounds(c, y, 16, 15);
    var y := TwoRounds(c, y, 14, 13);
    var y := TwoRounds(c, y, 12, 11);
    var y := TwoRounds(c, y, 10, 9);
    var y := TwoRounds(c, y, 8, 7);
    var y := TwoRounds(c, y, 6, 5);
    var y := TwoRounds(c, y, 4, 3);
    var y := TwoRounds(c, y, 2, 1);
    Block(Xor(y.r, c.P[0]), y.l)
  }

  lemma TwoRoundsInverse(c: BlowfishContext, y: Block, m: nat, n: nat)
    requires m < 18 && n < 18
    ensures TwoRounds(c, Swap(TwoRounds(c, y, m, n)), n, m) == Swap(y)
  {
    hide F;
    var yr := Round(c, y.r, y.l, m);
    XorCancels(y.r, Xor(F(c, y.l), c.P[m]));
    XorCancels(y.l, Xor(F(c, yr), c.P[n]));
    hide Xor;
  }

  lemma EncipherInverse(c: BlowfishContext, x: Block)
    ensures Decipher(c, Encipher(c, x)) == x
  {
    hide TwoRounds, Xor;
    var y0 := Block(Xor(x.l, c.P[0]), x.r);
    var y1 := TwoRounds(c, y0, 1, 2);
    var y2 := TwoRounds(c, y1, 3, 4);
    var y3 := TwoRounds(c, y2, 5, 6);
    var y4 := TwoRounds(c, y3, 7, 8);
    var y5 := TwoRounds(c, y4, 9, 10);
    var y6 := TwoRounds(c, y5, 11, 12);
    var y7 := TwoRounds(c, y6, 13, 14);
    var y8 := TwoRounds(c, y7, 15, 16);
    TwoRoundsInverse(c, y0, 1, 2);
    TwoRoundsInverse(c, y1, 3, 4);
    TwoRoundsInverse(c, y2, 5, 6);
    TwoRoundsInverse(c, y3, 7, 8);
    TwoRoundsInverse(c, y4, 9, 10);
    TwoRoundsInverse(c, y5, 11, 12);
    TwoRoundsInverse(c, y6, 13, 14);
    TwoRoundsInverse(c, y7, 15, 16);
    XorCancels(y8.r, c.P[17]);
    XorCancels(x.l, c.P[0]);
  }

  function Cipher(c: BlowfishContext, encrypt: bool): Block -> Block {
    if encrypt then x => Encipher(c, x) else x => Decipher(c, x)
  }

  lemma CipherInverse(c: BlowfishContext)
    ensures forall x :: Cipher(c, false)(Cipher(c, true)(x)) == x
  {
    forall x ensures Cipher(c, false)(Cipher(c, true)(x)) == x {
      EncipherInverse(c, x);
    }
  }

  method EncipherBlock(c: BlowfishContext, x: Block) returns (y: Block)
    ensures y == Cipher(c, true)(x)
  {
    hide Encipher;
    y := Encipher(c, x);
  }

  method DecipherBlock(c: BlowfishContext, x: Block) returns (y: Block)
    ensures y == Cipher(c, false)(x)
  {
    hide Decipher;
    y := Decipher(c, x);
  }

  /** The loop of blowfish_cbc_encrypt. */
  method EncryptBlocks(c: BlowfishContext, iv: Block, dest: array<byte>, src: array<byte>) returns (chain: Block)
    requires dest.Length == src.Length && src.Length % 8 == 0
    modifies dest
    ensures Output(dest[..], chain) == CbcEncrypt(Cipher(c, true), iv, old(src[..]))
  {
    hide BlockLsb, BytesLsb, XorBlock, CbcEncrypt, Progress, Cipher;
    ghost var e := Cipher(c, true);
    ghost var all := CbcEncrypt(e, iv, src[..]);
    ghost var done, todo := [], src[..];
    chain := iv;
    Started(CbcEncrypt(e, chain, todo));
    var i := 0;
    ghost var k, n := 0, src.Length / 8;
    assert src.Length == 8 * n;
    while i < src.Length
      invariant i == 8 * k && k <= n
      invariant dest[..i] == done && src[i..] == todo
      invariant Progress(done, CbcEncrypt(e, chain, todo), all)
    {
      CbcEncryptStep(e, done, chain, todo, all);
      var p := Load(src, i);
      var x := XorBlock(chain, BlockLsb(p));
      chain := EncipherBlock(c, x);
      Store(dest, i, BytesLsb(chain), src);
      done, todo := done + BytesLsb(chain), todo[8..];
      i := i + 8;
      k := k + 1;
    }
    assert todo == [];
    NoBlocksLeft(e, chain);
    Finished(done, CbcEncrypt(e, chain, todo), all);
    assert dest[..i] == dest[..];
  }

  /** The loop of blowfish_cbc_decrypt. */
  method DecryptBlocks(c: BlowfishContext, iv: Block, dest: array<byte>, src: array<byte>) returns (chain: Block)
    requires dest.Length == src.Length && src.Length % 8 == 0
    modifies dest
    ensures Output(dest[..], chain) == CbcDecrypt(Cipher(c, false), iv, old(src[..]))
  {
    hide BlockLsb, BytesLsb, XorBlock, CbcDecrypt, Progress, Cipher;
    ghost var e := Cipher(c, false);
    ghost var all := CbcDecrypt(e, iv, src[..]);
    ghost var done, todo := [], src[..];
    chain := iv;
    Started(CbcDecrypt(e, chain, todo));
    var i := 0;
    ghost var k, n := 0, src.Length / 8;
    assert src.Length == 8 * n;
    while i < src.Length
      invariant i == 8 * k && k <= n
      invariant dest[..i] == done && src[i..] == todo
      invariant Progress(done, CbcDecrypt(e, chain, todo), all)
    {
      CbcDecryptStep(e, done, chain, todo, all);
      var p := Load(src, i);
      var d := BlockLsb(p);
      var out := DecipherBlock(c, d);
      var plain := BytesLsb(XorBlock(chain, out));
      Store(dest, i, plain, src);
      done, todo := done + plain, todo[8..];
      chain := d;
      i := i + 8;
      k := k + 1;
    }
    assert todo == [];
    NoBlocksLeft(e, chain);
    Finished(done, CbcDecrypt(e, chain, todo), all);
    assert dest[..i] == dest[..];
  }

  /** blowfish_cbc_encrypt; dest may be src. */
  method CbcEncryptBuffer(c: BlowfishContext, iv: array<byte>, dest: array<byte>, src: array<byte>)
    requires iv.Length == 8 && dest.Length == src.Length && src.Length % 8 == 0
    requires iv != dest && iv != src
    modifies iv, dest
    ensures var r := old(CbcEncrypt(Cipher(c, true), BlockLsb(iv[..]), src[..]));
            dest[..] == r.data && iv[..] == BytesLsb(r.after)
  {
    hide *;
    var chain := EncryptBlocks(c, BlockLsb(iv[..]), dest, src);
    Store(iv, 0, BytesLsb(chain), iv);
    assert iv[..] == iv[..8];
  }

  /** blowfish_cbc_decrypt; dest may be src. */
  method CbcDecryptBuffer(c: BlowfishContext, iv: array<byte>, dest: array<byte>, src: array<byte>)
    requires iv.Length == 8 && dest.Length == src.Length && src.Length % 8 == 0
    requires iv != dest && iv != src
    modifies iv, dest
    ensures var r := old(CbcDecrypt(Cipher(c, false), BlockLsb(iv[..]), src[..]));
            dest[..] == r.data && iv[..] == BytesLsb(r.after)
  {
    hide *;
    var chain := DecryptBlocks(c, BlockLsb(iv[..]), dest, src);
    Store(iv, 0, BytesLsb(chain), iv);
    assert iv[..] == iv[..8];
  }
}
