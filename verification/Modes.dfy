/**
 The chaining modes of the block ciphers, for any transform of a block: CBC on words stored
 low octet first (des.c, blowfish.c) and CFB on words stored high octet first (idea.c).
 */
module Modes {
  import opened Bytes
  import opened MachineWords

  /** What a call writes, and what it leaves for the next call. */
  datatype Output<T> = Output(data: seq<byte>, after: T)

  function BlockLsb(s: seq<byte>): Block
    requires |s| >= 8
  {
    Block(GetLsb(s[..4]), GetLsb(s[4..8]))
  }

  function BytesLsb(b: Block): (s: seq<byte>)
    ensures |s| == 8
  {
    PutLsb(b.l) + PutLsb(b.r)
  }

  function BlockMsb(s: seq<byte>): Block
    requires |s| >= 8
  {
    Block(GetMsb(s[..4]), GetMsb(s[4..8]))
  }

  function BytesMsb(b: Block): (s: seq<byte>)
    ensures |s| == 8
  {
    PutMsb(b.l) + PutMsb(b.r)
  }

  lemma BlockRoundTrips(b: Block, s: seq<byte>)
    requires |s| >= 8
    ensures BlockLsb(BytesLsb(b)) == BlockMsb(BytesMsb(b)) == b
    ensures BytesLsb(BlockLsb(s)) == BytesMsb(BlockMsb(s)) == s[..8]
  {
    WordRoundTrips(b.l, s[..4]);
    WordRoundTrips(b.r, s[4..8]);
    assert BytesLsb(b)[..4] == PutLsb(b.l) && BytesLsb(b)[4..8] == PutLsb(b.r);
    assert BytesMsb(b)[..4] == PutMsb(b.l) && BytesMsb(b)[4..8] == PutMsb(b.r);
    hide GetLsb, GetMsb, PutLsb, PutMsb;
  }

  lemma XorBlockCancels(a: Block, b: Block)
    ensures XorBlock(XorBlock(a, b), b) == a
    ensures XorBlock(a, XorBlock(a, b)) == b
  {
    XorCancels(a.l, b.l);
    XorCancels(a.r, b.r);
    hide Xor;
  }

  // ---------- CBC ----------

  function CbcEncrypt(e: Block -> Block, iv: Block, s: seq<byte>): (r: Output<Block>)
    ensures |s| % 8 == 0 ==> |r.data| == |s|
    decreases |s|
  {
    if |s| < 8 then Output([], iv) else
    var c := e(XorBlock(iv, BlockLsb(s)));
    var rest := CbcEncrypt(e, c, s[8..]);
    Output(BytesLsb(c) + rest.data, rest.after)
  }

  function CbcDecrypt(d: Block -> Block, iv: Block, s: seq<byte>): (r: Output<Block>)
    ensures |s| % 8 == 0 ==> |r.data| == |s|
    decreases |s|
  {
    if |s| < 8 then Output([], iv) else
    var c := BlockLsb(s);
    var rest := CbcDecrypt(d, c, s[8..]);
    Output(BytesLsb(XorBlock(iv, d(c))) + rest.data, rest.after)
  }

  lemma {:induction false} CbcDecrypts(e: Block -> Block, d: Block -> Block, iv: Block, s: seq<byte>)
    requires |s| % 8 == 0
    requires forall x :: d(e(x)) == x
    ensures CbcDecrypt(d, iv, CbcEncrypt(e, iv, s).data) == Output(s, CbcEncrypt(e, iv, s).after)
    decreases |s|
  {
    hide BlockLsb, BytesLsb, XorBlock;
    if |s| >= 8 {
      var p := BlockLsb(s);
      var c := e(XorBlock(iv, p));
      var t := CbcEncrypt(e, c, s[8..]).data;
      CbcDecrypts(e, d, c, s[8..]);
      BlockRoundTrips(c, s);
      XorBlockCancels(iv, p);
      var u := BytesLsb(c) + t;
      assert CbcEncrypt(e, iv, s).data == u;
      assert u[8..] == t && u[..8] == BytesLsb(c);
      FirstBlock(u);
      assert s == s[..8] + s[8..];
    }
  }

  lemma {:induction false} CbcEncrypts(e: Block -> Block, d: Block -> Block, iv: Block, s: seq<byte>)
    requires |s| % 8 == 0
    requires forall x :: e(d(x)) == x
    ensures CbcEncrypt(e, iv, CbcDecrypt(d, iv, s).data) == Output(s, CbcDecrypt(d, iv, s).after)
    decreases |s|
  {
    hide BlockLsb, BytesLsb, XorBlock;
    if |s| >= 8 {
      var c := BlockLsb(s);
      var p := XorBlock(iv, d(c));
      var t := CbcDecrypt(d, c, s[8..]).data;
      CbcEncrypts(e, d, c, s[8..]);
      BlockRoundTrips(p, s);
      XorBlockCancels(iv, d(c));
      var u := BytesLsb(p) + t;
      assert CbcDecrypt(d, iv, s).data == u;
      assert u[8..] == t && u[..8] == BytesLsb(p);
      FirstBlock(u);
      assert s == s[..8] + s[8..];
    }
  }

  lemma FirstBlock(s: seq<byte>)
    requires |s| >= 8
    ensures BlockLsb(s) == BlockLsb(s[..8]) && BlockMsb(s) == BlockMsb(s[..8])
  {
    assert s[..8][..4] == s[..4] && s[..8][4..8] == s[4..8];
  }

  // ---------- CFB ----------

  function CfbEncrypt(e: Block -> Block, iv: Block, s: seq<byte>): (r: Output<Block>)
    ensures |s| % 8 == 0 ==> |r.data| == |s|
    decreases |s|
  {
    if |s| < 8 then Output([], iv) else
    var c := XorBlock(e(iv), BlockMsb(s));
    var rest := CfbEncrypt(e, c, s[8..]);
    Output(BytesMsb(c) + rest.data, rest.after)
  }

  function CfbDecrypt(e: Block -> Block, iv: Block, s: seq<byte>): (r: Output<Block>)
    ensures |s| % 8 == 0 ==> |r.data| == |s|
    decreases |s|
  {
    if |s| < 8 then Output([], iv) else
    var c := BlockMsb(s);
    var rest := CfbDecrypt(e, c, s[8..]);
    Output(BytesMsb(XorBlock(e(iv), c)) + rest.data, rest.after)
  }

  /** CFB needs no inverse of the transform. */
  lemma {:induction false} CfbDecrypts(e: Block -> Block, iv: Block, s: seq<byte>)
    requires |s| % 8 == 0
    ensures CfbDecrypt(e, iv, CfbEncrypt(e, iv, s).data) == Output(s, CfbEncrypt(e, iv, s).after)
    decreases |s|
  {
    hide BlockMsb, BytesMsb, XorBlock;
    if |s| >= 8 {
      var p := BlockMsb(s);
      var c := XorBlock(e(iv), p);
      var t := CfbEncrypt(e, c, s[8..]).data;
      CfbDecrypts(e, c, s[8..]);
      BlockRoundTrips(c, s);
      XorBlockCancels(e(iv), p);
      var u := BytesMsb(c) + t;
      assert CfbEncrypt(e, iv, s).data == u;
      assert u[8..] == t && u[..8] == BytesMsb(c);
      FirstBlock(u);
      assert s == s[..8] + s[8..];
    }
  }

  function XorOctet(a: byte, b: byte): byte { a ^ b }

  lemma CutXor24(a: word32, b: word32)
    ensures Cut(Xor(a, b), 24) == XorOctet(Cut(a, 24), Cut(b, 24))
  {
  }

  lemma CutXor16(a: word32, b: word32)
    ensures Cut(Xor(a, b), 16) == XorOctet(Cut(a, 16), Cut(b, 16))
  {
  }

  lemma CutXor8(a: word32, b: word32)
    ensures Cut(Xor(a, b), 8) == XorOctet(Cut(a, 8), Cut(b, 8))
  {
  }

  lemma CutXor0(a: word32, b: word32)
    ensures Cut(Xor(a, b), 0) == XorOctet(Cut(a, 0), Cut(b, 0))
  {
  }

  lemma PutXor(a: word32, s: seq<byte>)
    requires |s| == 4
    ensures forall k :: 0 <= k < 4 ==> PutMsb(Xor(a, GetMsb(s)))[k] == XorOctet(PutMsb(a)[k], s[k])
  {
    hide Cut, Xor, Join, XorOctet;
    var b := GetMsb(s);
    WordRoundTrips(b, s);
    CutXor24(a, b);
    CutXor16(a, b);
    CutXor8(a, b);
    CutXor0(a, b);
    assert s == PutMsb(b);
  }

  lemma OctetsXor(a: Block, s: seq<byte>)
    requires |s| >= 8
    ensures forall k :: 0 <= k < 8 ==> BytesMsb(XorBlock(a, BlockMsb(s)))[k] == XorOctet(BytesMsb(a)[k], s[k])
  {
    hide PutMsb, Xor, GetMsb, XorOctet;
    PutXor(a.l, s[..4]);
    PutXor(a.r, s[4..8]);
    assert forall k :: 0 <= k < 4 ==> s[k] == s[..4][k] && s[4 + k] == s[4..8][k];
  }

  /** Of CFB's output, the octets given by one block do not depend on those behind them. */
  lemma SameOctets(a: Block, s: seq<byte>, t: seq<byte>, len: nat)
    requires |s| == |t| && 8 <= |s| && len <= 8 && s[..len] == t[..len]
    ensures BytesMsb(XorBlock(a, BlockMsb(s)))[..len] == BytesMsb(XorBlock(a, BlockMsb(t)))[..len]
  {
    OctetsXor(a, s);
    OctetsXor(a, t);
    hide BlockMsb, BytesMsb, XorBlock, XorOctet;
    assert forall k :: 0 <= k < len ==> s[k] == s[..len][k] && t[k] == t[..len][k];
  }

  lemma JoinPrefix(a: seq<byte>, b: seq<byte>, c: seq<byte>, d: seq<byte>, len: nat)
    requires |a| == |b| && |c| == |d| && len <= |a| + |c|
    requires if len <= |a| then a[..len] == b[..len] else a == b && c[..len - |a|] == d[..len - |a|]
    ensures (a + c)[..len] == (b + d)[..len]
  {
    if len <= |a| {
      assert (a + c)[..len] == a[..len] && (b + d)[..len] == b[..len];
    } else {
      assert (a + c)[..len] == a + c[..len - |a|] && (b + d)[..len] == b + d[..len - |a|];
    }
  }

  /** The octets CFB encryption gives do not depend on those behind them. */
  lemma {:induction false} CfbEncryptPrefix(e: Block -> Block, iv: Block, s: seq<byte>, t: seq<byte>, len: nat)
    requires |s| == |t| && |s| % 8 == 0 && len <= |s| && s[..len] == t[..len]
    ensures CfbEncrypt(e, iv, s).data[..len] == CfbEncrypt(e, iv, t).data[..len]
    decreases |s|
  {
    hide BlockMsb, BytesMsb, XorBlock;
    if |s| >= 8 {
      var x, y := XorBlock(e(iv), BlockMsb(s)), XorBlock(e(iv), BlockMsb(t));
      if len >= 8 {
        assert s[..8] == s[..len][..8] && t[..8] == t[..len][..8];
        FirstBlock(s);
        FirstBlock(t);
        assert s[8..][..len - 8] == s[..len][8..] && t[8..][..len - 8] == t[..len][8..];
        CfbEncryptPrefix(e, x, s[8..], t[8..], len - 8);
      } else {
        SameOctets(e(iv), s, t, len);
      }
      JoinPrefix(BytesMsb(x), BytesMsb(y), CfbEncrypt(e, x, s[8..]).data, CfbEncrypt(e, y, t[8..]).data, len);
    }
  }

  /** The octets CFB decryption gives do not depend on those behind them. */
  lemma {:induction false} CfbDecryptPrefix(e: Block -> Block, iv: Block, s: seq<byte>, t: seq<byte>, len: nat)
    requires |s| == |t| && |s| % 8 == 0 && len <= |s| && s[..len] == t[..len]
    ensures CfbDecrypt(e, iv, s).data[..len] == CfbDecrypt(e, iv, t).data[..len]
    decreases |s|
  {
    hide BlockMsb, BytesMsb, XorBlock;
    if |s| >= 8 {
      var x, y := BlockMsb(s), BlockMsb(t);
      if len >= 8 {
        assert s[..8] == s[..len][..8] && t[..8] == t[..len][..8];
        FirstBlock(s);
        FirstBlock(t);
        assert s[8..][..len - 8] == s[..len][8..] && t[8..][..len - 8] == t[..len][8..];
        CfbDecryptPrefix(e, x, s[8..], t[8..], len - 8);
      } else {
        SameOctets(e(iv), s, t, len);
      }
      JoinPrefix(BytesMsb(XorBlock(e(iv), x)), BytesMsb(XorBlock(e(iv), y)),
                 CfbDecrypt(e, x, s[8..]).data, CfbDecrypt(e, y, t[8..]).data, len);
    }
  }

  /** Of a text of any length, behind which anything may stand at either end. */
  lemma CfbAnyLength(e: Block -> Block, iv: Block, s: seq<byte>, t: seq<byte>, len: nat)
    requires |s| == |t| && |s| % 8 == 0 && len <= |s| && t[..len] == CfbEncrypt(e, iv, s).data[..len]
    ensures CfbDecrypt(e, iv, t).data[..len] == s[..len]
  {
    CfbDecrypts(e, iv, s);
    CfbDecryptPrefix(e, iv, CfbEncrypt(e, iv, s).data, t, len);
  }

  // ---------- the loops over a buffer ----------

  /** A loop that has written done and still has rest to do, with result all. */
  predicate Progress<T(==)>(done: seq<byte>, rest: Output<T>, all: Output<T>) {
    done + rest.data == all.data && rest.after == all.after
  }

  lemma CbcEncryptStep(e: Block -> Block, done: seq<byte>, iv: Block, s: seq<byte>, all: Output<Block>)
    requires |s| >= 8 && Progress(done, CbcEncrypt(e, iv, s), all)
    ensures var c := e(XorBlock(iv, BlockLsb(s[..8]))); Progress(done + BytesLsb(c), CbcEncrypt(e, c, s[8..]), all)
  {
    FirstBlock(s);
    hide BlockLsb, BytesLsb, XorBlock;
    var c := e(XorBlock(iv, BlockLsb(s)));
    var rest := CbcEncrypt(e, c, s[8..]).data;
    assert (done + BytesLsb(c)) + rest == done + (BytesLsb(c) + rest);
  }

  lemma CbcDecryptStep(d: Block -> Block, done: seq<byte>, iv: Block, s: seq<byte>, all: Output<Block>)
    requires |s| >= 8 && Progress(done, CbcDecrypt(d, iv, s), all)
    ensures var c := BlockLsb(s[..8]); Progress(done + BytesLsb(XorBlock(iv, d(c))), CbcDecrypt(d, c, s[8..]), all)
  {
    FirstBlock(s);
    hide BlockLsb, BytesLsb, XorBlock;
    var c := BlockLsb(s);
    var p := BytesLsb(XorBlock(iv, d(c)));
    var rest := CbcDecrypt(d, c, s[8..]).data;
    assert (done + p) + rest == done + (p + rest);
  }

  lemma CfbEncryptStep(e: Block -> Block, done: seq<byte>, iv: Block, s: seq<byte>, all: Output<Block>)
    requires |s| >= 8 && Progress(done, CfbEncrypt(e, iv, s), all)
    ensures var c := XorBlock(e(iv), BlockMsb(s[..8])); Progress(done + BytesMsb(c), CfbEncrypt(e, c, s[8..]), all)
  {
    FirstBlock(s);
    hide BlockMsb, BytesMsb, XorBlock;
    var c := XorBlock(e(iv), BlockMsb(s));
    var rest := CfbEncrypt(e, c, s[8..]).data;
    assert (done + BytesMsb(c)) + rest == done + (BytesMsb(c) + rest);
  }

  lemma CfbDecryptStep(e: Block -> Block, done: seq<byte>, iv: Block, s: seq<byte>, all: Output<Block>)
    requires |s| >= 8 && Progress(done, CfbDecrypt(e, iv, s), all)
    ensures var c := BlockMsb(s[..8]); Progress(done + BytesMsb(XorBlock(e(iv), c)), CfbDecrypt(e, c, s[8..]), all)
  {
    FirstBlock(s);
    hide BlockMsb, BytesMsb, XorBlock;
    var c := BlockMsb(s);
    var p := BytesMsb(XorBlock(e(iv), c));
    var rest := CfbDecrypt(e, c, s[8..]).data;
    assert (done + p) + rest == done + (p + rest);
  }

  lemma NoBlocksLeft(f: Block -> Block, iv: Block)
    ensures CbcEncrypt(f, iv, []) == CbcDecrypt(f, iv, []) == Output([], iv)
    ensures CfbEncrypt(f, iv, []) == CfbDecrypt(f, iv, []) == Output([], iv)
  {
  }

  lemma Started<T>(all: Output<T>)
    ensures Progress([], all, all)
  {
  }

  lemma Finished<T>(done: seq<byte>, rest: Output<T>, all: Output<T>)
    requires Progress(done, rest, all) && rest.data == []
    ensures done == all.data && rest.after == all.after
  {
  }

  /** Reads the eight octets at src + i. */
  method Load(src: array<byte>, i: nat) returns (s: seq<byte>)
    requires i + 8 <= src.Length
    ensures s == src[i..][..8]
  {
    s := src[i..i + 8];
  }

  /** Stores eight octets at dest + i; what is still to be read of src stays, also when it is dest. */
  method Store(dest: array<byte>, i: nat, s: seq<byte>, ghost src: array<byte>)
    requires |s| == 8 && i + 8 <= dest.Length && i + 8 <= src.Length
    modifies dest
    ensures dest[..i + 8] == old(dest[..i]) + s && dest[i + 8..] == old(dest[i + 8..])
    ensures src[i + 8..] == old(src[i..])[8..]
  {
    forall k | 0 <= k < 8 {
      dest[i + k] := s[k];
    }
  }

  /** The octets k..n of s are stored at i + k..i + n. */
  ghost predicate Stored(now: seq<byte>, was: seq<byte>, s: seq<byte>, i: nat, k: nat, n: nat)
    requires n <= |s|
  {
    |now| == |was| && forall x :: 0 <= x < |was| ==> now[x] == if i + k <= x < i + n then s[x - i] else was[x]
  }

  /** One case of the switch, which falls through to the next. */
  method StoreOctet(dest: array<byte>, i: nat, k: nat, n: nat, c: byte, ghost was: seq<byte>, ghost s: seq<byte>)
    requires n <= |s| && i + n <= dest.Length && k < |s| && s[k] == c && Stored(dest[..], was, s, i, k + 1, n)
    modifies dest
    ensures Stored(dest[..], was, s, i, k, n)
  {
    if n > k {
      dest[i + k] := c;
    }
  }

  /** Stores the first n octets of a word pair at dest + i: the switch behind the last whole block. */
  method StorePart(dest: array<byte>, i: nat, b: Block, n: nat)
    requires n < 8 && i + n <= dest.Length
    modifies dest
    ensures dest[..i + n] == old(dest[..i]) + BytesMsb(b)[..n] && dest[i + n..] == old(dest[i + n..])
  {
    hide Cut;
    ghost var s, was := BytesMsb(b), dest[..];
    assert Stored(dest[..], was, s, i, 7, n);
    assert s[..4] == PutMsb(b.l) && s[4..] == PutMsb(b.r);
    hide BytesMsb, Stored;
    StoreOctet(dest, i, 6, n, Cut(b.r, 8), was, s);
    StoreOctet(dest, i, 5, n, Cut(b.r, 16), was, s);
    StoreOctet(dest, i, 4, n, Cut(b.r, 24), was, s);
    StoreOctet(dest, i, 3, n, Cut(b.l, 0), was, s);
    StoreOctet(dest, i, 2, n, Cut(b.l, 8), was, s);
    StoreOctet(dest, i, 1, n, Cut(b.l, 16), was, s);
    StoreOctet(dest, i, 0, n, Cut(b.l, 24), was, s);
    StoredAll(dest[..], was, s, i, n);
  }

  lemma StoredAll(now: seq<byte>, was: seq<byte>, s: seq<byte>, i: nat, n: nat)
    requires n <= |s| && i + n <= |was| && Stored(now, was, s, i, 0, n)
    ensures now[..i + n] == was[..i] + s[..n] && now[i + n..] == was[i + n..]
  {
  }
}
