/**
 The ciphers and their modes block by block and octet by octet, as their descriptions give them:
 the order of octets in a block, CBC, CFB and the three passes of triple DES, the rounds of Blowfish,
 the steps of Arcfour, and which octets of a session key become which key.
 */
module CipherLaws {
  import opened Bytes
  import opened MachineWords
  import opened Options
  import opened Modes
  import opened Ciphers
  import Des
  import DesCbc
  import Blowfish
  import Arcfour
  import CipherContexts
  import DesKeys
  import Idea
  import IdeaCfb
  import BlowfishKeys

  // ---------- octets and blocks ----------

  /** Four octets as a number modulo 2^32, the first one lowest. */
  function LowFirst(a: byte, b: byte, c: byte, d: byte): word32 {
    a as word32 + 0x100 * (b as word32) + 0x1_0000 * (c as word32) + 0x100_0000 * (d as word32)
  }

  lemma JoinIs(a: byte, b: byte, c: byte, d: byte)
    ensures Join(d, c, b, a) == LowFirst(a, b, c, d)
  {
  }

  /** DES and Blowfish read a block low octet first; IDEA reads it high octet first.  What is written is
      read again. */
  lemma BlockOctets(s: seq<byte>)
    requires |s| == 8
    ensures BlockLsb(s) == Block(LowFirst(s[0], s[1], s[2], s[3]), LowFirst(s[4], s[5], s[6], s[7]))
    ensures BlockMsb(s) == Block(LowFirst(s[3], s[2], s[1], s[0]), LowFirst(s[7], s[6], s[5], s[4]))
    ensures BytesLsb(BlockLsb(s)) == s && BytesMsb(BlockMsb(s)) == s
  {
    JoinIs(s[0], s[1], s[2], s[3]);
    JoinIs(s[4], s[5], s[6], s[7]);
    JoinIs(s[3], s[2], s[1], s[0]);
    JoinIs(s[7], s[6], s[5], s[4]);
    BlockRoundTrips(BlockLsb(s), s);
    hide Join, LowFirst, BytesLsb, BytesMsb;
    assert s[..8] == s;
  }

  /** The blocks of a text whose length is a multiple of eight. */
  function Blocks(s: seq<byte>, highFirst: bool): seq<Block>
    decreases |s|
  {
    if |s| < 8 then [] else [if highFirst then BlockMsb(s) else BlockLsb(s)] + Blocks(s[8..], highFirst)
  }

  lemma {:induction false} BlocksAre(s: seq<byte>, highFirst: bool, i: nat)
    requires 8 * i + 8 <= |s|
    ensures i < |Blocks(s, highFirst)|
    ensures var t := s[8 * i..8 * i + 8];
            Blocks(s, highFirst)[i] == if highFirst then BlockMsb(t) else BlockLsb(t)
    decreases |s|
  {
    hide BlockMsb, BlockLsb;
    FirstBlock(s);
    if i > 0 {
      BlocksAre(s[8..], highFirst, i - 1);
      assert s[8..][8 * (i - 1)..8 * (i - 1) + 8] == s[8 * i..8 * i + 8];
    }
  }

  lemma BlocksMore(b: Block, s: seq<byte>)
    ensures Blocks(BytesLsb(b) + s, false) == [b] + Blocks(s, false)
    ensures Blocks(BytesMsb(b) + s, true) == [b] + Blocks(s, true)
  {
    hide BlockMsb, BlockLsb, BytesMsb, BytesLsb;
    BlockRoundTrips(b, BytesLsb(b));
    FirstBlock(BytesLsb(b) + s);
    FirstBlock(BytesMsb(b) + s);
    assert (BytesLsb(b) + s)[..8] == BytesLsb(b) && (BytesLsb(b) + s)[8..] == s;
    assert (BytesMsb(b) + s)[..8] == BytesMsb(b) && (BytesMsb(b) + s)[8..] == s;
  }

  // ---------- the modes ----------

  /** The block before block i, or the vector. */
  function Before(iv: Block, s: seq<Block>, i: nat): Block
    requires i <= |s|
  {
    if i == 0 then iv else s[i - 1]
  }

  /** Each block of ciphertext is the cipher of the text combined with the block of ciphertext before
      it, and the last one is the vector for the next call. */
  ghost predicate IsCbc(e: Block -> Block, iv: Block, p: seq<Block>, c: seq<Block>, after: Block) {
    && |c| == |p| && (forall i :: 0 <= i < |p| ==> c[i] == e(XorBlock(Before(iv, c, i), p[i])))
    && after == Before(iv, c, |c|)
  }

  /** Each block of text is the inverse cipher of the block of ciphertext, combined with the block of
      ciphertext before it. */
  ghost predicate IsCbcBack(d: Block -> Block, iv: Block, c: seq<Block>, p: seq<Block>, after: Block) {
    && |p| == |c| && (forall i :: 0 <= i < |p| ==> p[i] == XorBlock(Before(iv, c, i), d(c[i])))
    && after == Before(iv, c, |c|)
  }

  /** Each block of ciphertext is the text combined with the cipher of the block of ciphertext before it. */
  ghost predicate IsCfb(e: Block -> Block, iv: Block, p: seq<Block>, c: seq<Block>, after: Block) {
    && |c| == |p| && (forall i :: 0 <= i < |p| ==> c[i] == XorBlock(e(Before(iv, c, i)), p[i]))
    && after == Before(iv, c, |c|)
  }

  lemma BeforeMore(iv: Block, b: Block, s: seq<Block>)
    ensures Before(iv, [b] + s, 0) == iv
    ensures forall i :: 1 <= i <= |s| + 1 ==> Before(iv, [b] + s, i) == Before(b, s, i - 1)
  {
  }

  lemma CbcMore(e: Block -> Block, iv: Block, x: Block, b: Block, p: seq<Block>, c: seq<Block>, after: Block)
    requires b == e(XorBlock(iv, x)) && IsCbc(e, b, p, c, after)
    ensures IsCbc(e, iv, [x] + p, [b] + c, after)
  {
    hide XorBlock, Before;
    BeforeMore(iv, b, c);
  }

  lemma {:induction false} CbcLaw(e: Block -> Block, iv: Block, s: seq<byte>)
    requires |s| % 8 == 0
    ensures var r := CbcEncrypt(e, iv, s); IsCbc(e, iv, Blocks(s, false), Blocks(r.data, false), r.after)
    decreases |s|
  {
    hide BlockLsb, BytesLsb, XorBlock, Before;
    if |s| < 8 {
      assert CbcEncrypt(e, iv, s).data == [] && Blocks(s, false) == [];
      NothingBefore(iv);
    } else {
      var b := e(XorBlock(iv, BlockLsb(s)));
      var rest := CbcEncrypt(e, b, s[8..]);
      CbcLaw(e, b, s[8..]);
      BlocksMore(b, rest.data);
      hide IsCbc;
      CbcMore(e, iv, BlockLsb(s), b, Blocks(s[8..], false), Blocks(rest.data, false), rest.after);
    }
  }

  lemma NothingBefore(iv: Block)
    ensures Before(iv, [], 0) == iv
  {
  }

  lemma CbcBackMore(d: Block -> Block, iv: Block, x: Block, b: Block, c: seq<Block>, p: seq<Block>, after: Block)
    requires b == XorBlock(iv, d(x)) && IsCbcBack(d, x, c, p, after)
    ensures IsCbcBack(d, iv, [x] + c, [b] + p, after)
  {
    hide XorBlock, Before;
    BeforeMore(iv, x, c);
  }

  lemma {:induction false} CbcBackLaw(d: Block -> Block, iv: Block, s: seq<byte>)
    requires |s| % 8 == 0
    ensures var r := CbcDecrypt(d, iv, s); IsCbcBack(d, iv, Blocks(s, false), Blocks(r.data, false), r.after)
    decreases |s|
  {
    hide BlockLsb, BytesLsb, XorBlock, Before;
    if |s| < 8 {
      assert CbcDecrypt(d, iv, s).data == [] && Blocks(s, false) == [];
      NothingBefore(iv);
    } else {
      var c := BlockLsb(s);
      var rest := CbcDecrypt(d, c, s[8..]);
      CbcBackLaw(d, c, s[8..]);
      BlocksMore(XorBlock(iv, d(c)), rest.data);
      hide IsCbcBack;
      CbcBackMore(d, iv, c, XorBlock(iv, d(c)), Blocks(s[8..], false), Blocks(rest.data, false), rest.after);
    }
  }

  lemma CfbMore(e: Block -> Block, iv: Block, x: Block, b: Block, p: seq<Block>, c: seq<Block>, after: Block)
    requires b == XorBlock(e(iv), x) && IsCfb(e, b, p, c, after)
    ensures IsCfb(e, iv, [x] + p, [b] + c, after)
  {
    hide XorBlock, Before;
    BeforeMore(iv, b, c);
  }

  lemma {:induction false} CfbLaw(e: Block -> Block, iv: Block, s: seq<byte>)
    requires |s| % 8 == 0
    ensures var r := CfbEncrypt(e, iv, s); IsCfb(e, iv, Blocks(s, true), Blocks(r.data, true), r.after)
    decreases |s|
  {
    hide BlockMsb, BytesMsb, XorBlock, Before;
    if |s| < 8 {
      assert CfbEncrypt(e, iv, s).data == [] && Blocks(s, true) == [];
      NothingBefore(iv);
    } else {
      var b := XorBlock(e(iv), BlockMsb(s));
      var rest := CfbEncrypt(e, b, s[8..]);
      CfbLaw(e, b, s[8..]);
      BlocksMore(b, rest.data);
      hide IsCfb;
      CfbMore(e, iv, BlockMsb(s), b, Blocks(s[8..], true), Blocks(rest.data, true), rest.after);
    }
  }

  /** Triple DES encrypts with the first key, decrypts that with the second and encrypts that with the
      third, each pass chained with its own vector. */
  lemma TripleLaw(ks: DesCbc.Triple<Des.DesContext>, iv: DesCbc.Triple<Block>, s: seq<byte>)
    returns (y: seq<Block>, z: seq<Block>)
    requires |s| % 8 == 0
    ensures var r := DesCbc.TripleEncrypt(ks, iv, s);
            && IsCbc(Des.Cipher(ks.first, true), iv.first, Blocks(s, false), y, r.after.first)
            && IsCbcBack(Des.Cipher(ks.second, false), iv.second, y, z, r.after.second)
            && IsCbc(Des.Cipher(ks.third, true), iv.third, z, Blocks(r.data, false), r.after.third)
  {
    hide IsCbc, IsCbcBack, CbcEncrypt, CbcDecrypt, Des.Cipher, Blocks;
    var t := CbcEncrypt(Des.Cipher(ks.first, true), iv.first, s).data;
    var u := CbcDecrypt(Des.Cipher(ks.second, false), iv.second, t).data;
    y, z := Blocks(t, false), Blocks(u, false);
    CbcLaw(Des.Cipher(ks.first, true), iv.first, s);
    CbcBackLaw(Des.Cipher(ks.second, false), iv.second, t);
    CbcLaw(Des.Cipher(ks.third, true), iv.third, u);
  }

  /** The block functions, of encryption. */
  lemma BlockFunctions(keys: Idea.Keys, ks: Des.DesContext, b: Blowfish.BlowfishContext, x: Block)
    ensures IdeaCfb.Cipher(keys)(x) == IdeaCfb.TransformBlock(keys, x)
    ensures Des.Cipher(ks, true)(x) == Des.Transform(ks, x, true)
    ensures Blowfish.Cipher(b, true)(x) == Blowfish.Encipher(b, x)
  {
    hide IdeaCfb.TransformBlock, Des.Transform, Blowfish.Encipher;
  }

  /** What each kind of context does to whole blocks, and where it stands afterwards. */
  lemma ContextLaw(c: Context, s: seq<byte>)
    requires |s| % 8 == 0
    ensures c.NoCipher? ==> Encrypt(c, s) == Output(s, c)
    ensures c.ArcfourCipher? ==>
              var t := Arcfour.Encrypt(c.stream, s); Encrypt(c, s) == Output(t.data, ArcfourCipher(t.after))
    ensures c.TripleDesCipher? ==>
              var t := DesCbc.TripleEncrypt(c.desKeys, c.ivs, s);
              Encrypt(c, s) == Output(t.data, TripleDesCipher(c.desKeys, t.after))
    ensures var r := Encrypt(c, s);
            && (c.IdeaCipher? ==>
                  && r.after.IdeaCipher? && r.after.ideaKeys == c.ideaKeys
                  && IsCfb(IdeaCfb.Cipher(c.ideaKeys), c.iv, Blocks(s, true), Blocks(r.data, true), r.after.iv))
            && (c.DesCipher? ==>
                  && r.after.DesCipher? && r.after.desKey == c.desKey
                  && IsCbc(Des.Cipher(c.desKey, true), c.iv, Blocks(s, false), Blocks(r.data, false), r.after.iv))
            && (c.BlowfishCipher? ==>
                  && r.after.BlowfishCipher? && r.after.boxes == c.boxes
                  && IsCbc(Blowfish.Cipher(c.boxes, true), c.iv, Blocks(s, false), Blocks(r.data, false), r.after.iv))
  {
    hide CbcEncrypt, CfbEncrypt, Blocks, XorBlock, Before, DesCbc.TripleEncrypt, Arcfour.Encrypt,
        IdeaCfb.Cipher, Des.Cipher, Blowfish.Cipher;
    if c.IdeaCipher? {
      CfbLaw(IdeaCfb.Cipher(c.ideaKeys), c.iv, s);
    } else if c.DesCipher? {
      CbcLaw(Des.Cipher(c.desKey, true), c.iv, s);
    } else if c.BlowfishCipher? {
      CbcLaw(Blowfish.Cipher(c.boxes, true), c.iv, s);
    }
  }

  // ---------- Blowfish ----------

  /** F takes the octets of the word, the highest first, to the four boxes: the first two entries are
      added, the third combined with the sum, and the last added. */
  lemma BlowfishF(c: Blowfish.BlowfishContext, h: byte, i: byte, j: byte, k: byte)
    ensures Blowfish.F(c, LowFirst(k, j, i, h)) ==
            Plus(Xor(Plus(c.S[h as nat], c.S[256 + i as nat]), c.S[512 + j as nat]), c.S[768 + k as nat])
  {
    JoinIs(k, j, i, h);
    CutJoin(h, i, j, k);
    hide Join, Cut, LowFirst, Xor, Plus;
  }

  /** The halves after n rounds of the description: the left one is combined with a subkey, the right one
      with F of the left one, and the two change places. */
  function Exchanged(c: Blowfish.BlowfishContext, x: Block, n: nat): Block
    requires n <= 16
  {
    if n == 0 then x else
    var y := Exchanged(c, x, n - 1);
    var left := Xor(y.l, c.P[n - 1]);
    Block(Xor(y.r, Blowfish.F(c, left)), left)
  }

  /** The left half already combined with the subkey of the next round. */
  function Ahead(c: Blowfish.BlowfishContext, x: Block, n: nat): Block
    requires n <= 16
  {
    Block(Xor(Exchanged(c, x, n).l, c.P[n]), Exchanged(c, x, n).r)
  }

  lemma TwoRoundsAhead(c: Blowfish.BlowfishContext, x: Block, n: nat)
    requires n <= 14
    ensures Blowfish.TwoRounds(c, Ahead(c, x, n), n + 1, n + 2) == Ahead(c, x, n + 2)
  {
    hide Xor, Blowfish.F;
    var y, z := Exchanged(c, x, n), Exchanged(c, x, n + 1);
    var left := Xor(y.l, c.P[n]);
    assert z == Block(Xor(y.r, Blowfish.F(c, left)), left);
    Regroup(y.r, Blowfish.F(c, left), c.P[n + 1]);
    var next := Xor(z.l, c.P[n + 1]);
    Regroup(left, Blowfish.F(c, next), c.P[n + 2]);
    assert Exchanged(c, x, n + 2) == Block(Xor(left, Blowfish.F(c, next)), next);
  }

  lemma Regroup(a: word32, b: word32, d: word32)
    ensures Xor(a, Xor(b, d)) == Xor(Xor(a, b), d)
  {
  }

  /** blowfish_encrypt is the sixteen rounds of the description, the last exchange undone and the two
      remaining subkeys combined with the halves. */
  lemma BlowfishRounds(c: Blowfish.BlowfishContext, x: Block)
    ensures var y := Exchanged(c, x, 16);
            Blowfish.Encipher(c, x) == Block(Xor(y.r, c.P[17]), Xor(y.l, c.P[16]))
  {
    hide Xor, Blowfish.TwoRounds, Exchanged;
    TwoRoundsAhead(c, x, 0);
    TwoRoundsAhead(c, x, 2);
    TwoRoundsAhead(c, x, 4);
    TwoRoundsAhead(c, x, 6);
    TwoRoundsAhead(c, x, 8);
    TwoRoundsAhead(c, x, 10);
    TwoRoundsAhead(c, x, 12);
    TwoRoundsAhead(c, x, 14);
    NotExchanged(c, x);
  }

  lemma NotExchanged(c: Blowfish.BlowfishContext, x: Block)
    ensures Exchanged(c, x, 0) == x
  {
  }

  // ---------- Arcfour ----------

  /** t is s with the entries i and j exchanged. */
  predicate ExchangedIn(s: Arcfour.Table, t: Arcfour.Table, i: nat, j: nat)
    requires i < 256 && j < 256
  {
    t[i] == s[j] && t[j] == s[i] && forall k :: 0 <= k < 256 && k != i && k != j ==> t[k] == s[k]
  }

  lemma ExchangeLaw(s: Arcfour.Table, i: nat, j: nat)
    requires i < 256 && j < 256
    ensures ExchangedIn(s, Arcfour.Exchange(s, i, j), i, j)
  {
  }

  function Sum(a: nat, b: nat): nat { (a + b) % 256 }

  lemma AddIsSum(a: Arcfour.octet, b: Arcfour.octet)
    ensures Arcfour.Add(a, b) == Sum(a, b) == Sum(b, a)
  {
  }

  /** A step of the stream: x goes on by one, y by the entry at x, the two entries are exchanged, and the
      entry at their sum is the key octet, all sums modulo 256. */
  lemma ArcfourStep(c: Arcfour.Stream)
    ensures var d := Arcfour.Advance(c);
            && d.x == Sum(c.x, 1) && d.y == Sum(c.y, c.state[d.x])
            && ExchangedIn(c.state, d.state, d.x, d.y)
            && Sum(d.state[d.x], d.state[d.y]) < 256
            && Arcfour.Key(d) == d.state[Sum(d.state[d.x], d.state[d.y])] as byte
  {
    hide Arcfour.Exchange, ExchangedIn, Arcfour.Add, Sum;
    var d := Arcfour.Advance(c);
    AddIsSum(c.x, 1);
    AddIsSum(c.state[d.x], c.y);
    AddIsSum(d.state[d.y], d.state[d.x]);
    ExchangeLaw(c.state, d.x, d.y);
  }

  /** The context after n steps. */
  function ArcfourAfter(c: Arcfour.Stream, n: nat): Arcfour.Stream {
    if n == 0 then c else Arcfour.Advance(ArcfourAfter(c, n - 1))
  }

  lemma {:induction false} AfterFirst(c: Arcfour.Stream, n: nat)
    ensures ArcfourAfter(Arcfour.Advance(c), n) == ArcfourAfter(c, n + 1)
  {
    hide Arcfour.Advance;
    if n > 0 {
      AfterFirst(c, n - 1);
    }
  }

  /** Octet i of the text is combined with the key octet of step i + 1. */
  lemma {:induction false} ArcfourLaw(c: Arcfour.Stream, s: seq<byte>, i: nat)
    requires i < |s|
    ensures Arcfour.Encrypt(c, s).data[i] == s[i] ^ Arcfour.Key(ArcfourAfter(c, i + 1))
    ensures Arcfour.Encrypt(c, s).after == ArcfourAfter(c, |s|)
    decreases s
  {
    hide Arcfour.Advance, Arcfour.Key;
    var d := Arcfour.Advance(c);
    assert ArcfourAfter(c, 1) == Arcfour.Advance(ArcfourAfter(c, 0)) == d;
    AfterFirst(c, i);
    AfterFirst(c, |s| - 1);
    if |s| > 1 {
      ArcfourLaw(d, s[1..], if i == 0 then 0 else i - 1);
    }
  }

  /** The table of a key: it starts as the identity, and turn n exchanges entry n with the one found by
      going on by the entry and by an octet of the key, which repeats. */
  lemma ArcfourSchedule(key: seq<byte>, n: nat)
    requires |key| > 0 && n < 256
    ensures Arcfour.Scheduled(key, 0).stateIndex == 0 && Arcfour.Scheduled(key, 0).state[n] == n
    ensures var p, q := Arcfour.Scheduled(key, n), Arcfour.Scheduled(key, n + 1);
            && q.stateIndex == Sum(p.stateIndex, p.state[n] + key[n % |key|] as nat)
            && ExchangedIn(p.state, q.state, n, q.stateIndex)
    ensures Arcfour.Fresh(key) == Arcfour.Stream(0, 0, Arcfour.Scheduled(key, 256).state)
  {
    var p := Arcfour.Scheduled(key, n);
    assert Arcfour.Scheduled(key, n + 1) == Arcfour.Treat(p, n, key[n % |key|]);
    hide Arcfour.Scheduled;
    ArcfourSum(p.stateIndex, key[n % |key|] as nat, p.state[n]);
  }

  lemma ArcfourSum(a: Arcfour.octet, b: Arcfour.octet, d: Arcfour.octet)
    ensures Arcfour.Add(Arcfour.Add(a, b), d) == Sum(a, d as int + b)
  {
  }

  // ---------- session keys ----------

  /** The numbers of the ciphers.  Any other is refused, and so is no key for Arcfour and Blowfish; DES takes
      the first eight octets, and Arcfour and Blowfish all there are. */
  lemma CipherNumbers(cipher: int, key: seq<byte>, k: CipherContexts.CipherTables)
    ensures var c := CipherContexts.SetKey(cipher, key, k);
            && (c.Some? <==> cipher in {0, 1, 2, 3} || (cipher in {5, 6} && key != []))
            && (c.Some? ==>
                  && (cipher == 0 ==> c.value == NoCipher) && (cipher == 1 ==> c.value.IdeaCipher?)
                  && (cipher == 2 && |key| >= 8 ==> c.value == DesCipher(k.DesContext(key[..8]), Block(0, 0)))
                  && (cipher == 3 ==> c.value.TripleDesCipher?)
                  && (cipher == 5 ==> c.value == ArcfourCipher(Arcfour.Fresh(key)))
                  && (cipher == 6 ==> c.value == BlowfishCipher(BlowfishKeys.Schedule(k.boxes, key), Block(0, 0))))
  {
    hide DesKeys.Schedule, BlowfishKeys.Schedule, Arcfour.Fresh;
    if |key| >= 8 {
      assert CipherContexts.Padded(key)[..8] == key[..8];
    }
  }

  /** Triple DES uses the first three times eight octets as keys for DES, and the first key again in the
      third place when there are no more than sixteen. */
  lemma TripleKeys(first: seq<byte>, second: seq<byte>, third: seq<byte>, more: seq<byte>,
                   k: CipherContexts.CipherTables)
    requires |first| == |second| == |third| == 8
    ensures var a, b, d := CipherContexts.SetKey(2, first, k), CipherContexts.SetKey(2, second, k),
                           CipherContexts.SetKey(2, third, k);
            var zero := Block(0, 0);
            var vectors := DesCbc.Triple(zero, zero, zero);
            && a.Some? && b.Some? && d.Some? && a.value.DesCipher? && b.value.DesCipher? && d.value.DesCipher?
            && CipherContexts.SetKey(3, first + second + third + more, k) ==
               Some(TripleDesCipher(DesCbc.Triple(a.value.desKey, b.value.desKey, d.value.desKey), vectors))
            && CipherContexts.SetKey(3, first + second, k) ==
               Some(TripleDesCipher(DesCbc.Triple(a.value.desKey, b.value.desKey, a.value.desKey), vectors))
  {
    hide DesKeys.Schedule;
    EightOctets(first);
    EightOctets(second);
    EightOctets(third);
    var p, q := CipherContexts.Padded(first + second + third + more), CipherContexts.Padded(first + second);
    assert p[..8] == first && p[8..16] == second && p[16..24] == third;
    assert q[..8] == first && q[8..16] == second;
  }

  lemma EightOctets(s: seq<byte>)
    requires |s| == 8
    ensures CipherContexts.Padded(s)[..8] == s
  {
  }

  /** The first sixteen octets are the key for IDEA: a number of 128 bits, high octet first, of which the
      subkeys are the words, rotated by 25 bits for every eight of them. */
  lemma IdeaSubkeys(key: seq<byte>, more: seq<byte>, k: CipherContexts.CipherTables, i: nat)
    requires |key| == 16 && i < 52
    ensures var c := CipherContexts.SetKey(1, key + more, k);
            && c.Some? && c.value.IdeaCipher? && c.value.iv == Block(0, 0)
            && c.value.ideaKeys[i] ==
               IdeaCfb.WordAt(IdeaCfb.Rotated(
                 IdeaCfb.Number(HighFirst(key[0], key[1]), HighFirst(key[2], key[3]),
                                HighFirst(key[4], key[5]), HighFirst(key[6], key[7]),
                                HighFirst(key[8], key[9]), HighFirst(key[10], key[11]),
                                HighFirst(key[12], key[13]), HighFirst(key[14], key[15])), i / 8), i % 8)
  {
    var p := CipherContexts.Padded(key + more);
    assert p[..16] == key;
    var w := IdeaCfb.KeyWords(p);
    IdeaCfb.SubkeysRotate(w, i);
    hide IdeaCfb.WordAt, IdeaCfb.Rotated, IdeaCfb.Number, IdeaCfb.Subkey;
    IdeaWords(p, key);
  }

  function HighFirst(a: byte, b: byte): Idea.half { a as nat * 0x100 + b as nat }

  lemma IdeaWords(p: seq<byte>, key: seq<byte>)
    requires |p| == 32 && |key| == 16 && p[..16] == key
    ensures var w := IdeaCfb.KeyWords(p);
            && w[0] == HighFirst(key[0], key[1]) && w[1] == HighFirst(key[2], key[3])
            && w[2] == HighFirst(key[4], key[5]) && w[3] == HighFirst(key[6], key[7])
            && w[4] == HighFirst(key[8], key[9]) && w[5] == HighFirst(key[10], key[11])
            && w[6] == HighFirst(key[12], key[13]) && w[7] == HighFirst(key[14], key[15])
  {
  }

  /** Every subkey of Blowfish starts combined with the next four octets of the key, high octet first. */
  lemma BlowfishMixture(boxes: Blowfish.BlowfishContext, key: seq<byte>, i: nat)
    requires key != [] && i < 18
    ensures var c := BlowfishKeys.Generated(BlowfishKeys.Mixed(boxes, key), 0);
            && c.1 == Block(0, 0) && c.0.S == boxes.S
            && c.0.P[i] == Xor(boxes.P[i], LowFirst(key[(4 * i + 3) % |key|], key[(4 * i + 2) % |key|],
                                                     key[(4 * i + 1) % |key|], key[4 * i % |key|]))
    ensures BlowfishKeys.Schedule(boxes, key) == BlowfishKeys.Generated(BlowfishKeys.Mixed(boxes, key), 521).0
  {
    JoinIs(key[(4 * i + 3) % |key|], key[(4 * i + 2) % |key|], key[(4 * i + 1) % |key|], key[4 * i % |key|]);
    hide Xor, Join, LowFirst;
  }

  /** The subkeys and the boxes in one row. */
  function Row(c: Blowfish.BlowfishContext): (r: seq<word32>)
    ensures |r| == 1042
  {
    c.P + c.S
  }

  /** Then every pair of words is replaced by the cipher of the pair before it, under what there is by then. */
  lemma BlowfishPairs(c: Blowfish.BlowfishContext, k: nat)
    requires k < 521
    ensures var (b, x) := BlowfishKeys.Generated(c, k);
            var (b', y) := BlowfishKeys.Generated(c, k + 1);
            y == Blowfish.Encipher(b, x) && Row(b') == Row(b)[2 * k := y.l][2 * k + 1 := y.r]
  {
    hide Blowfish.Encipher;
    var (b, x) := BlowfishKeys.Generated(c, k);
    PairInRow(b, k, Blowfish.Encipher(b, x));
  }

  lemma PairInRow(b: Blowfish.BlowfishContext, k: nat, y: Block)
    requires k < 521
    ensures Row(BlowfishKeys.PutPair(b, k, y)) == Row(b)[2 * k := y.l][2 * k + 1 := y.r]
  {
  }
}
