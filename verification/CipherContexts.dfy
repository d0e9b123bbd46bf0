/**
 CipherContext in memory (cipher.c:221-355): the keys, the chaining octets that every call
 updates, and the dispatch on the cipher type.
 */
module CipherContexts {
  import opened Bytes
  import opened MachineWords
  import opened Options
  import opened Modes
  import opened Ciphers
  import Idea
  import IdeaCfb
  import Des
  import DesKeys
  import DesCbc
  import Blowfish
  import BlowfishKeys
  import Arcfour

  /** The tables of DES and Blowfish, which are left open: des_skb, des_SPtrans and the first boxes. */
  datatype CipherTables = CipherTables(
    selection: DesKeys.SixBitTables, substitution: DesKeys.SixBitTables, boxes: Blowfish.BlowfishContext)
  {
    function DesContext(key: seq<byte>): Des.DesContext
      requires |key| >= 8
    {
      Des.DesTables(DesKeys.Schedule(selection, key), substitution)
    }
  }

  /** Thirty-two octets of key data, zeros behind a shorter key. */
  function Padded(key: seq<byte>): (p: seq<byte>)
    ensures |p| == 32 && forall i :: 0 <= i < 32 ==> p[i] == if i < |key| then key[i] else 0
  {
    seq(32, i requires 0 <= i < 32 => if i < |key| then key[i] else 0)
  }

  function IdeaKeys(key: seq<byte>): Idea.Keys
    requires |key| >= 16
  {
    seq(52, i requires 0 <= i < 52 => IdeaCfb.Subkey(IdeaCfb.KeyWords(key), i))
  }

  /** cipher_set_key; the program stops on an unknown cipher and on an empty Arcfour or Blowfish key. */
  function SetKey(cipher: int, key: seq<byte>, k: CipherTables): Option<Context> {
    var p := Padded(key);
    match cipher
    case 0 => Some(NoCipher)
    case 1 => Some(IdeaCipher(IdeaKeys(p), Block(0, 0)))
    case 2 => Some(DesCipher(k.DesContext(p[..8]), Block(0, 0)))
    case 3 =>
      var third := if |key| <= 16 then k.DesContext(p[..8]) else k.DesContext(p[16..24]);
      Some(TripleDesCipher(DesCbc.Triple(k.DesContext(p[..8]), k.DesContext(p[8..16]), third),
                           DesCbc.Triple(Block(0, 0), Block(0, 0), Block(0, 0))))
    case 5 => if |key| == 0 then None else Some(ArcfourCipher(Arcfour.Fresh(key)))
    case 6 => if |key| == 0 then None else Some(BlowfishCipher(BlowfishKeys.Schedule(k.boxes, key), Block(0, 0)))
    case _ => None
  }

  /** Keys for DES or triple DES that differ in parity only give the same context. */
  lemma ParityBitsIgnored(cipher: int, key: seq<byte>, key': seq<byte>, k: CipherTables)
    requires cipher in {2, 3} && |key| == |key'|
    requires forall i :: 0 <= i < |key| ==> DesKeys.NoParity(key[i]) == DesKeys.NoParity(key'[i])
    ensures SetKey(cipher, key, k) == SetKey(cipher, key', k)
  {
    hide DesKeys.Schedule, DesKeys.NoParity;
    var p, p' := Padded(key), Padded(key');
    assert forall i :: 0 <= i < 32 ==> DesKeys.NoParity(p[i]) == DesKeys.NoParity(p'[i]);
    DesKeys.SameSchedule(k.selection, p[..8], p'[..8]);
    DesKeys.SameSchedule(k.selection, p[8..16], p'[8..16]);
    DesKeys.SameSchedule(k.selection, p[16..24], p'[16..24]);
  }

  method MakeDes(key: seq<byte>, k: CipherTables) returns (ks: Des.DesContext)
    requires |key| >= 8
    ensures ks == k.DesContext(key)
  {
    hide DesKeys.Schedule;
    var a := new word32[32];
    DesKeys.SetKey(key, k.selection, a);
    ks := Des.DesTables(a[..], k.substitution);
  }

  method MakeBlowfish(key: seq<byte>, k: CipherTables) returns (b: Blowfish.BlowfishContext)
    requires key != []
    ensures b == BlowfishKeys.Schedule(k.boxes, key)
  {
    hide BlowfishKeys.Schedule;
    var P, S := new word32[18], new word32[1024];
    BlowfishKeys.SetKey(P, S, k.boxes, key);
    b := BlowfishKeys.Boxes(P[..], S[..]);
  }

  method MakeIdea(key: seq<byte>) returns (keys: Idea.Keys)
    requires |key| >= 16
    ensures keys == IdeaKeys(key)
  {
    hide IdeaCfb.Subkey, IdeaCfb.KeyWords;
    var a := new Idea.half[52];
    IdeaCfb.SetKey(a, key);
    keys := a[..];
  }

  /** The keys that cipher_set_key computes, with every chain starting as zeros. */
  method MakeKeys(cipher: int, key: seq<byte>, k: CipherTables) returns (c: Context)
    requires SetKey(cipher, key, k).Some?
    ensures c == SetKey(cipher, key, k).value
  {
    hide IdeaKeys, Padded, Arcfour.Fresh, BlowfishKeys.Schedule, DesKeys.Schedule;
    var p := Padded(key);
    match cipher {
      case 1 =>
        var keys := MakeIdea(p);
        c := IdeaCipher(keys, Block(0, 0));
      case 2 =>
        var ks := MakeDes(p[..8], k);
        c := DesCipher(ks, Block(0, 0));
      case 3 =>
        var first := MakeDes(p[..8], k);
        var second := MakeDes(p[8..16], k);
        var third := MakeDes(if |key| <= 16 then p[..8] else p[16..24], k);
        c := TripleDesCipher(DesCbc.Triple(first, second, third),
                             DesCbc.Triple(Block(0, 0), Block(0, 0), Block(0, 0)));
      case 5 =>
        c := ArcfourCipher(Arcfour.Fresh(key));
      case 6 =>
        var b := MakeBlowfish(key, k);
        c := BlowfishCipher(b, Block(0, 0));
      case _ =>
        c := NoCipher;
    }
  }

  /** A copy; dest may be src. */
  method Copy(dest: array<byte>, src: array<byte>)
    requires dest.Length == src.Length
    modifies dest
    ensures dest[..] == old(src[..])
  {
    var i := 0;
    while i < src.Length
      invariant i <= src.Length
      invariant forall k :: 0 <= k < i ==> dest[k] == old(src[k])
      invariant forall k :: i <= k < src.Length ==> src[k] == old(src[k])
    {
      dest[i] := src[i];
      i := i + 1;
    }
  }

  class CipherContext {
    /** The type and the keys; the chaining state of this value is not used. */
    const kind: Context
    const iv1: array<byte>
    const iv2: array<byte>
    const iv3: array<byte>
    const arcfour: Arcfour.ArcfourContext?

    ghost predicate Valid()
    {
      && iv1.Length == iv2.Length == iv3.Length == 8
      && iv1 != iv2 && iv1 != iv3 && iv2 != iv3
      && (kind.ArcfourCipher? ==> arcfour != null && arcfour.Valid())
    }

    ghost function Repr(): set<object>
    {
      {iv1, iv2, iv3} + (if arcfour == null then {} else {arcfour, arcfour.state})
    }

    /** The context as a value. */
    ghost function Value(): Context
      requires Valid()
      reads Repr()
    {
      match kind
      case NoCipher => NoCipher
      case IdeaCipher(keys, _) => IdeaCipher(keys, BlockMsb(iv1[..]))
      case DesCipher(ks, _) => DesCipher(ks, BlockLsb(iv1[..]))
      case TripleDesCipher(ks, _) => TripleDesCipher(ks, DesCbc.Chains(iv1[..], iv2[..], iv3[..]))
      case ArcfourCipher(_) => ArcfourCipher(arcfour.Value())
      case BlowfishCipher(b, _) => BlowfishCipher(b, BlockLsb(iv1[..]))
    }

    /** cipher_set_key */
    constructor (cipher: int, key: seq<byte>, k: CipherTables)
      requires SetKey(cipher, key, k).Some?
      ensures Valid() && fresh(Repr()) && Value() == SetKey(cipher, key, k).value
    {
      hide BlockLsb, BlockMsb, Padded, IdeaKeys, SetKey, Arcfour.Fresh;
      FreshContext(cipher, key, k);
      var c := MakeKeys(cipher, key, k);
      kind := c;
      var a1, a2, a3 := new byte[8](_ => 0), new byte[8](_ => 0), new byte[8](_ => 0);
      iv1, iv2, iv3 := a1, a2, a3;
      if cipher == 5 {
        var a := new Arcfour.ArcfourContext(key);
        arcfour := a;
      } else {
        arcfour := null;
      }
      ZeroBlock(a1[..]);
      ZeroBlock(a2[..]);
      ZeroBlock(a3[..]);
    }

    method EncryptIdea(dest: array<byte>, src: array<byte>)
      requires Valid() && kind.IdeaCipher? && dest.Length == src.Length && Takes(Value(), src.Length)
      requires dest !in Repr() && src !in Repr()
      modifies Repr(), dest
      ensures Output(dest[..], Value()) == old(Encrypt(Value(), src[..]))
    {
      hide CbcEncrypt, CbcDecrypt, BlockLsb, BytesLsb;
      ghost var r := Encrypt(Value(), src[..]);
      NothingOver(src[..]);
      IdeaCfb.CfbEncryptBuffer(kind.ideaKeys, iv1, dest, src, src.Length);
      Restored(r.after.iv);
      assert dest[..] == dest[..src.Length] && r.data == r.data[..src.Length];
    }

    method EncryptDes(dest: array<byte>, src: array<byte>)
      requires Valid() && kind.DesCipher? && dest.Length == src.Length && Takes(Value(), src.Length)
      requires dest !in Repr() && src !in Repr()
      modifies Repr(), dest
      ensures Output(dest[..], Value()) == old(Encrypt(Value(), src[..]))
    {
      hide CbcEncrypt, CbcDecrypt, BlockLsb, BytesLsb;
      ghost var r := Encrypt(Value(), src[..]).after.iv;
      DesCbc.CbcEncryptBuffer(kind.desKey, iv1, dest, src);
      Restored(r);
    }

    method EncryptTripleDes(dest: array<byte>, src: array<byte>)
      requires Valid() && kind.TripleDesCipher? && dest.Length == src.Length && Takes(Value(), src.Length)
      requires dest !in Repr() && src !in Repr()
      modifies Repr(), dest
      ensures Output(dest[..], Value()) == old(Encrypt(Value(), src[..]))
    {
      hide CbcEncrypt, CbcDecrypt, BlockLsb, BytesLsb;
      ghost var r := Encrypt(Value(), src[..]).after.ivs;
      DesCbc.TripleEncryptBuffer(kind.desKeys, iv1, iv2, iv3, dest, src);
      Restored(r.first);
      Restored(r.second);
      Restored(r.third);
    }

    method EncryptArcfour(dest: array<byte>, src: array<byte>)
      requires Valid() && kind.ArcfourCipher? && dest.Length == src.Length && Takes(Value(), src.Length)
      requires dest !in Repr() && src !in Repr()
      modifies Repr(), dest
      ensures Output(dest[..], Value()) == old(Encrypt(Value(), src[..]))
    {
      hide CbcEncrypt, CbcDecrypt, BlockLsb, BytesLsb;
      arcfour.EncryptBuffer(dest, src);
    }

    method EncryptBlowfish(dest: array<byte>, src: array<byte>)
      requires Valid() && kind.BlowfishCipher? && dest.Length == src.Length && Takes(Value(), src.Length)
      requires dest !in Repr() && src !in Repr()
      modifies Repr(), dest
      ensures Output(dest[..], Value()) == old(Encrypt(Value(), src[..]))
    {
      hide CbcEncrypt, CbcDecrypt, BlockLsb, BytesLsb;
      ghost var r := Encrypt(Value(), src[..]).after.iv;
      Blowfish.CbcEncryptBuffer(kind.boxes, iv1, dest, src);
      Restored(r);
    }

    /** cipher_encrypt; dest may be src. */
    method EncryptBuffer(dest: array<byte>, src: array<byte>)
      requires Valid() && dest.Length == src.Length && Takes(Value(), src.Length)
      requires dest !in Repr() && src !in Repr()
      modifies Repr(), dest
      ensures Output(dest[..], Value()) == old(Encrypt(Value(), src[..]))
    {
      match kind {
        case NoCipher =>
          Copy(dest, src);
        case IdeaCipher(_, _) => EncryptIdea(dest, src);
        case DesCipher(_, _) => EncryptDes(dest, src);
        case TripleDesCipher(_, _) => EncryptTripleDes(dest, src);
        case ArcfourCipher(_) => EncryptArcfour(dest, src);
        case BlowfishCipher(_, _) => EncryptBlowfish(dest, src);
      }
    }

    method DecryptIdea(dest: array<byte>, src: array<byte>)
      requires Valid() && kind.IdeaCipher? && dest.Length == src.Length && Takes(Value(), src.Length)
      requires dest !in Repr() && src !in Repr()
      modifies Repr(), dest
      ensures Output(dest[..], Value()) == old(Decrypt(Value(), src[..]))
    {
      hide CbcEncrypt, CbcDecrypt, BlockLsb, BytesLsb;
      ghost var r := Decrypt(Value(), src[..]);
      NothingOver(src[..]);
      IdeaCfb.CfbDecryptBuffer(kind.ideaKeys, iv1, dest, src, src.Length);
      Restored(r.after.iv);
      assert dest[..] == dest[..src.Length] && r.data == r.data[..src.Length];
    }

    method DecryptDes(dest: array<byte>, src: array<byte>)
      requires Valid() && kind.DesCipher? && dest.Length == src.Length && Takes(Value(), src.Length)
      requires dest !in Repr() && src !in Repr()
      modifies Repr(), dest
      ensures Output(dest[..], Value()) == old(Decrypt(Value(), src[..]))
    {
      hide CbcEncrypt, CbcDecrypt, BlockLsb, BytesLsb;
      ghost var r := Decrypt(Value(), src[..]).after.iv;
      DesCbc.CbcDecryptBuffer(kind.desKey, iv1, dest, src);
      Restored(r);
    }

    method DecryptTripleDes(dest: array<byte>, src: array<byte>)
      requires Valid() && kind.TripleDesCipher? && dest.Length == src.Length && Takes(Value(), src.Length)
      requires dest !in Repr() && src !in Repr()
      modifies Repr(), dest
      ensures Output(dest[..], Value()) == old(Decrypt(Value(), src[..]))
    {
      hide CbcEncrypt, CbcDecrypt, BlockLsb, BytesLsb;
      ghost var r := Decrypt(Value(), src[..]).after.ivs;
      DesCbc.TripleDecryptBuffer(kind.desKeys, iv1, iv2, iv3, dest, src);
      Restored(r.first);
      Restored(r.second);
      Restored(r.third);
    }

    method DecryptArcfour(dest: array<byte>, src: array<byte>)
      requires Valid() && kind.ArcfourCipher? && dest.Length == src.Length && Takes(Value(), src.Length)
      requires dest !in Repr() && src !in Repr()
      modifies Repr(), dest
      ensures Output(dest[..], Value()) == old(Decrypt(Value(), src[..]))
    {
      hide CbcEncrypt, CbcDecrypt, BlockLsb, BytesLsb;
      arcfour.EncryptBuffer(dest, src);
    }

    method DecryptBlowfish(dest: array<byte>, src: array<byte>)
      requires Valid() && kind.BlowfishCipher? && dest.Length == src.Length && Takes(Value(), src.Length)
      requires dest !in Repr() && src !in Repr()
      modifies Repr(), dest
      ensures Output(dest[..], Value()) == old(Decrypt(Value(), src[..]))
    {
      hide CbcEncrypt, CbcDecrypt, BlockLsb, BytesLsb;
      ghost var r := Decrypt(Value(), src[..]).after.iv;
      Blowfish.CbcDecryptBuffer(kind.boxes, iv1, dest, src);
      Restored(r);
    }

    /** cipher_decrypt; dest may be src. */
    method DecryptBuffer(dest: array<byte>, src: array<byte>)
      requires Valid() && dest.Length == src.Length && Takes(Value(), src.Length)
      requires dest !in Repr() && src !in Repr()
      modifies Repr(), dest
      ensures Output(dest[..], Value()) == old(Decrypt(Value(), src[..]))
    {
      match kind {
        case NoCipher =>
          Copy(dest, src);
        case IdeaCipher(_, _) => DecryptIdea(dest, src);
        case DesCipher(_, _) => DecryptDes(dest, src);
        case TripleDesCipher(_, _) => DecryptTripleDes(dest, src);
        case ArcfourCipher(_) => DecryptArcfour(dest, src);
        case BlowfishCipher(_, _) => DecryptBlowfish(dest, src);
      }
    }
  }

  /** Every chain starts as zeros. */
  lemma FreshContext(cipher: int, key: seq<byte>, k: CipherTables)
    requires SetKey(cipher, key, k).Some?
    ensures var c := SetKey(cipher, key, k).value;
            && (cipher == 5 <==> c.ArcfourCipher?)
            && (cipher == 5 ==> |key| > 0 && c == ArcfourCipher(Arcfour.Fresh(key)))
            && (c.IdeaCipher? || c.DesCipher? || c.BlowfishCipher? ==> c.iv == Block(0, 0))
            && (c.TripleDesCipher? ==> c.ivs == DesCbc.Triple(Block(0, 0), Block(0, 0), Block(0, 0)))
  {
    hide IdeaKeys, Padded, Arcfour.Fresh, BlowfishKeys.Schedule, DesKeys.Schedule;
  }

  /** The chain stored by one call is the one the next call reads. */
  lemma Restored(b: Block)
    ensures BlockLsb(BytesLsb(b)) == b && BlockMsb(BytesMsb(b)) == b
  {
    BlockRoundTrips(b, BytesLsb(b));
  }

  lemma ZeroBlock(s: seq<byte>)
    requires |s| == 8 && forall i :: 0 <= i < 8 ==> s[i] == 0
    ensures BlockLsb(s) == BlockMsb(s) == Block(0, 0)
  {
  }

  lemma NothingOver(s: seq<byte>)
    requires |s| % 8 == 0
    ensures IdeaCfb.Whole(|s|) == |s| && s[..IdeaCfb.Whole(|s|)] == s
  {
  }
}
