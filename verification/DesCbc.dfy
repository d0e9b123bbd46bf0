/**
 DES in CBC mode and triple DES with three chained inner CBC passes (des.c:464-587).
 */
module DesCbc {
  import opened Bytes
  import opened MachineWords
  import opened Modes
  import opened Des

  /** The loop of des_cbc_encrypt. */
  method EncryptBlocks(ks: DesContext, iv: Block, dest: array<byte>, src: array<byte>) returns (chain: Block)
    requires dest.Length == src.Length && src.Length % 8 == 0
    modifies dest
    ensures Output(dest[..], chain) == CbcEncrypt(Cipher(ks, true), iv, old(src[..]))
  {
    hide BlockLsb, BytesLsb, XorBlock, CbcEncrypt, Progress, Cipher;
    ghost var e := Cipher(ks, true);
    ghost var all := CbcEncrypt(e, iv, src[..]);
    ghost var done, todo := [], src[..];
    chain := iv;
    Started(CbcEncrypt(e, chain, todo));
    var i := 0;
    ghost var k, n := 0, src.Length / 8;
    assert src.Length == 8 * n;
    while i < src.Length
      invariant i == 8 * k && k <= n
      invariant dest[..i] == done && src[i..] == todo
      invariant Progress(done, CbcEncrypt(e, chain, todo), all)
    {
      CbcEncryptStep(e, done, chain, todo, all);
      var p := Load(src, i);
      var x := XorBlock(chain, BlockLsb(p));
      chain := Encrypt(x.l, x.r, ks, true);
      Store(dest, i, BytesLsb(chain), src);
      done, todo := done + BytesLsb(chain), todo[8..];
      i := i + 8;
      k := k + 1;
    }
    assert todo == [];
    NoBlocksLeft(e, chain);
    Finished(done, CbcEncrypt(e, chain, todo), all);
    assert dest[..i] == dest[..];
  }

  /** The loop of des_cbc_decrypt. */
  method DecryptBlocks(ks: DesContext, iv: Block, dest: array<byte>, src: array<byte>) returns (chain: Block)
    requires dest.Length == src.Length && src.Length % 8 == 0
    modifies dest
    ensures Output(dest[..], chain) == CbcDecrypt(Cipher(ks, false), iv, old(src[..]))
  {
    hide BlockLsb, BytesLsb, XorBlock, CbcDecrypt, Progress, Cipher;
    ghost var e := Cipher(ks, false);
    ghost var all := CbcDecrypt(e, iv, src[..]);
    ghost var done, todo := [], src[..];
    chain := iv;
    Started(CbcDecrypt(e, chain, todo));
    var i := 0;
    ghost var k, n := 0, src.Length / 8;
    assert src.Length == 8 * n;
    while i < src.Length
      invariant i == 8 * k && k <= n
      invariant dest[..i] == done && src[i..] == todo
      invariant Progress(done, CbcDecrypt(e, chain, todo), all)
    {
      CbcDecryptStep(e, done, chain, todo, all);
      var p := Load(src, i);
      var c := BlockLsb(p);
      var out := Encrypt(c.l, c.r, ks, false);
      var plain := BytesLsb(XorBlock(chain, out));
      Store(dest, i, plain, src);
      done, todo := done + plain, todo[8..];
      chain := c;
      i := i + 8;
      k := k + 1;
    }
    assert todo == [];
    NoBlocksLeft(e, chain);
    Finished(done, CbcDecrypt(e, chain, todo), all);
    assert dest[..i] == dest[..];
  }

  /** des_cbc_encrypt; dest may be src. */
  method CbcEncryptBuffer(ks: DesContext, iv: array<byte>, dest: array<byte>, src: array<byte>)
    requires iv.Length == 8 && dest.Length == src.Length && src.Length % 8 == 0
    requires iv != dest && iv != src
    modifies iv, dest
    ensures var r := old(CbcEncrypt(Cipher(ks, true), BlockLsb(iv[..]), src[..]));
            dest[..] == r.data && iv[..] == BytesLsb(r.after)
  {
    hide *;
    var chain := EncryptBlocks(ks, BlockLsb(iv[..]), dest, src);
    Store(iv, 0, BytesLsb(chain), iv);
    assert iv[..] == iv[..8];
  }

  /** des_cbc_decrypt; dest may be src. */
  method CbcDecryptBuffer(ks: DesContext, iv: array<byte>, dest: array<byte>, src: array<byte>)
    requires iv.Length == 8 && dest.Length == src.Length && src.Length % 8 == 0
    requires iv != dest && iv != src
    modifies iv, dest
    ensures var r := old(CbcDecrypt(Cipher(ks, false), BlockLsb(iv[..]), src[..]));
            dest[..] == r.data && iv[..] == BytesLsb(r.after)
  {
    hide *;
    var chain := DecryptBlocks(ks, BlockLsb(iv[..]), dest, src);
    Store(iv, 0, BytesLsb(chain), iv);
    assert iv[..] == iv[..8];
  }

  // ---------- triple DES ----------

  datatype Triple<T> = Triple(first: T, second: T, third: T)

  /** Three passes over the whole buffer, each with its own key and its own chain. */
  function TripleEncrypt(ks: Triple<DesContext>, iv: Triple<Block>, s: seq<byte>): (r: Output<Triple<Block>>)
    requires |s| % 8 == 0
    ensures |r.data| == |s|
  {
    var r1 := CbcEncrypt(Cipher(ks.first, true), iv.first, s);
    var r2 := CbcDecrypt(Cipher(ks.second, false), iv.second, r1.data);
    var r3 := CbcEncrypt(Cipher(ks.third, true), iv.third, r2.data);
    Output(r3.data, Triple(r1.after, r2.after, r3.after))
  }

  function TripleDecrypt(ks: Triple<DesContext>, iv: Triple<Block>, s: seq<byte>): (r: Output<Triple<Block>>)
    requires |s| % 8 == 0
    ensures |r.data| == |s|
  {
    var r3 := CbcDecrypt(Cipher(ks.third, false), iv.third, s);
    var r2 := CbcEncrypt(Cipher(ks.second, true), iv.second, r3.data);
    var r1 := CbcDecrypt(Cipher(ks.first, false), iv.first, r2.data);
    Output(r1.data, Triple(r1.after, r2.after, r3.after))
  }

  /** Decryption gives the text back and leaves all three chains where encryption left them. */
  lemma TripleDecrypts(ks: Triple<DesContext>, iv: Triple<Block>, s: seq<byte>)
    requires |s| % 8 == 0
    ensures TripleDecrypt(ks, iv, TripleEncrypt(ks, iv, s).data) == Output(s, TripleEncrypt(ks, iv, s).after)
  {
    hide Cipher, CbcEncrypt, CbcDecrypt;
    CipherInverse(ks.first, true);
    CipherInverse(ks.second, false);
    CipherInverse(ks.third, true);
    var r1 := CbcEncrypt(Cipher(ks.first, true), iv.first, s);
    var r2 := CbcDecrypt(Cipher(ks.second, false), iv.second, r1.data);
    CbcDecrypts(Cipher(ks.third, true), Cipher(ks.third, false), iv.third, r2.data);
    CbcEncrypts(Cipher(ks.second, true), Cipher(ks.second, false), iv.second, r1.data);
    CbcDecrypts(Cipher(ks.first, true), Cipher(ks.first, false), iv.first, s);
  }

  function Chains(iv1: seq<byte>, iv2: seq<byte>, iv3: seq<byte>): Triple<Block>
    requires |iv1| == |iv2| == |iv3| == 8
  {
    Triple(BlockLsb(iv1), BlockLsb(iv2), BlockLsb(iv3))
  }

  /** des_3cbc_encrypt: the second and third passes work in place on dest. */
  method TripleEncryptBuffer(ks: Triple<DesContext>, iv1: array<byte>, iv2: array<byte>, iv3: array<byte>,
                             dest: array<byte>, src: array<byte>)
    requires iv1.Length == iv2.Length == iv3.Length == 8 && dest.Length == src.Length && src.Length % 8 == 0
    requires iv1 != iv2 && iv1 != iv3 && iv2 != iv3 && dest !in {iv1, iv2, iv3} && src !in {iv1, iv2, iv3}
    modifies iv1, iv2, iv3, dest
    ensures var r := old(TripleEncrypt(ks, Chains(iv1[..], iv2[..], iv3[..]), src[..]));
            dest[..] == r.data && iv1[..] == BytesLsb(r.after.first)
            && iv2[..] == BytesLsb(r.after.second) && iv3[..] == BytesLsb(r.after.third)
  {
    hide CbcEncrypt, CbcDecrypt, Cipher, BlockLsb, BytesLsb;
    CbcEncryptBuffer(ks.first, iv1, dest, src);
    CbcDecryptBuffer(ks.second, iv2, dest, dest);
    CbcEncryptBuffer(ks.third, iv3, dest, dest);
  }

  /** des_3cbc_decrypt. */
  method TripleDecryptBuffer(ks: Triple<DesContext>, iv1: array<byte>, iv2: array<byte>, iv3: array<byte>,
                             dest: array<byte>, src: array<byte>)
    requires iv1.Length == iv2.Length == iv3.Length == 8 && dest.Length == src.Length && src.Length % 8 == 0
    requires iv1 != iv2 && iv1 != iv3 && iv2 != iv3 && dest !in {iv1, iv2, iv3} && src !in {iv1, iv2, iv3}
    modifies iv1, iv2, iv3, dest
    ensures var r := old(TripleDecrypt(ks, Chains(iv1[..], iv2[..], iv3[..]), src[..]));
            dest[..] == r.data && iv1[..] == BytesLsb(r.after.first)
            && iv2[..] == BytesLsb(r.after.second) && iv3[..] == BytesLsb(r.after.third)
  {
    hide CbcEncrypt, CbcDecrypt, Cipher, BlockLsb, BytesLsb;
    CbcDecryptBuffer(ks.third, iv3, dest, src);
    CbcEncryptBuffer(ks.second, iv2, dest, dest);
    CbcDecryptBuffer(ks.first, iv1, dest, dest);
  }
}
