/**
 The common interface of the ciphers (cipher.c).  Decryption inverts encryption and leaves the
 receiver's context equal to the sender's, over any number of calls.
 */
module Ciphers {
  import opened Bytes
  import opened MachineWords
  import opened Modes
  import Idea
  import IdeaCfb
  import Des
  import DesCbc
  import Blowfish
  import Arcfour

  /** CipherContext by value: the type, the keys and the chaining state. */
  datatype Context =
    | NoCipher
    | IdeaCipher(ideaKeys: Idea.Keys, iv: Block)
    | DesCipher(desKey: Des.DesContext, iv: Block)
    | TripleDesCipher(desKeys: DesCbc.Triple<Des.DesContext>, ivs: DesCbc.Triple<Block>)
    | ArcfourCipher(stream: Arcfour.Stream)
    | BlowfishCipher(boxes: Blowfish.BlowfishContext, iv: Block)

  /** The block ciphers take whole blocks only. */
  predicate Takes(c: Context, len: nat) {
    c.NoCipher? || c.ArcfourCipher? || len % 8 == 0
  }

  /** cipher_encrypt: what it writes, and the context it leaves. */
  function Encrypt(c: Context, s: seq<byte>): (r: Output<Context>)
    requires Takes(c, |s|)
    ensures |r.data| == |s|
  {
    match c
    case NoCipher => Output(s, c)
    case IdeaCipher(keys, iv) =>
      var r := CfbEncrypt(IdeaCfb.Cipher(keys), iv, s); Output(r.data, IdeaCipher(keys, r.after))
    case DesCipher(ks, iv) =>
      var r := CbcEncrypt(Des.Cipher(ks, true), iv, s); Output(r.data, DesCipher(ks, r.after))
    case TripleDesCipher(ks, ivs) =>
      var r := DesCbc.TripleEncrypt(ks, ivs, s); Output(r.data, TripleDesCipher(ks, r.after))
    case ArcfourCipher(stream) =>
      var r := Arcfour.Encrypt(stream, s); Output(r.data, ArcfourCipher(r.after))
    case BlowfishCipher(b, iv) =>
      var r := CbcEncrypt(Blowfish.Cipher(b, true), iv, s); Output(r.data, BlowfishCipher(b, r.after))
  }

  /** cipher_decrypt. */
  function Decrypt(c: Context, s: seq<byte>): (r: Output<Context>)
    requires Takes(c, |s|)
    ensures |r.data| == |s|
  {
    match c
    case NoCipher => Output(s, c)
    case IdeaCipher(keys, iv) =>
      var r := CfbDecrypt(IdeaCfb.Cipher(keys), iv, s); Output(r.data, IdeaCipher(keys, r.after))
    case DesCipher(ks, iv) =>
      var r := CbcDecrypt(Des.Cipher(ks, false), iv, s); Output(r.data, DesCipher(ks, r.after))
    case TripleDesCipher(ks, ivs) =>
      var r := DesCbc.TripleDecrypt(ks, ivs, s); Output(r.data, TripleDesCipher(ks, r.after))
    case ArcfourCipher(stream) =>
      var r := Arcfour.Encrypt(stream, s); Output(r.data, ArcfourCipher(r.after))
    case BlowfishCipher(b, iv) =>
      var r := CbcDecrypt(Blowfish.Cipher(b, false), iv, s); Output(r.data, BlowfishCipher(b, r.after))
  }

  /** One call: the receiver gets the text, and both contexts are equal again. */
  lemma DecryptInverse(c: Context, s: seq<byte>)
    requires Takes(c, |s|)
    ensures Takes(c, |Encrypt(c, s).data|)
    ensures Decrypt(c, Encrypt(c, s).data) == Output(s, Encrypt(c, s).after)
    ensures forall len: nat :: Takes(Encrypt(c, s).after, len) == Takes(c, len)
  {
    hide CbcEncrypt, CbcDecrypt, CfbEncrypt, CfbDecrypt;
    match c {
      case NoCipher =>
      case IdeaCipher(keys, iv) => CfbDecrypts(IdeaCfb.Cipher(keys), iv, s);
      case DesCipher(ks, iv) =>
        Des.CipherInverse(ks, true);
        CbcDecrypts(Des.Cipher(ks, true), Des.Cipher(ks, false), iv, s);
      case TripleDesCipher(ks, ivs) => DesCbc.TripleDecrypts(ks, ivs, s);
      case ArcfourCipher(stream) => Arcfour.EncryptTwice(stream, s);
      case BlowfishCipher(b, iv) =>
        Blowfish.CipherInverse(b);
        CbcDecrypts(Blowfish.Cipher(b, true), Blowfish.Cipher(b, false), iv, s);
    }
  }

  // ---------- successive calls ----------

  predicate TakesAll(c: Context, texts: seq<seq<byte>>) {
    forall i :: 0 <= i < |texts| ==> Takes(c, |texts[i]|)
  }

  /** The results of successive calls of cipher_encrypt, and the contexts after each. */
  function EncryptAll(c: Context, texts: seq<seq<byte>>): (r: seq<Output<Context>>)
    requires TakesAll(c, texts)
    ensures |r| == |texts|
    decreases |texts|
  {
    if texts == [] then [] else
    var r := Encrypt(c, texts[0]);
    DecryptInverse(c, texts[0]);
    [r] + EncryptAll(r.after, texts[1..])
  }

  function DecryptAll(c: Context, texts: seq<seq<byte>>): (r: seq<Output<Context>>)
    requires TakesAll(c, texts)
    ensures |r| == |texts|
    decreases |texts|
  {
    if texts == [] then [] else
    var r := Decrypt(c, texts[0]);
    DecryptTakes(c, texts[0]);
    [r] + DecryptAll(r.after, texts[1..])
  }

  lemma DecryptTakes(c: Context, s: seq<byte>)
    requires Takes(c, |s|)
    ensures forall len: nat :: Takes(Decrypt(c, s).after, len) == Takes(c, len)
  {
  }

  function Datas(r: seq<Output<Context>>): (d: seq<seq<byte>>)
    ensures |d| == |r| && forall i :: 0 <= i < |r| ==> d[i] == r[i].data
  {
    seq(|r|, i requires 0 <= i < |r| => r[i].data)
  }

  /** Each text came back, and after each call the contexts are equal. */
  predicate InStep(texts: seq<seq<byte>>, sent: seq<Output<Context>>, received: seq<Output<Context>>) {
    && |texts| == |sent| == |received|
    && forall i :: 0 <= i < |texts| ==> received[i] == Output(texts[i], sent[i].after)
  }

  /**
   Two contexts that start equal: whatever one encrypts in any number of calls, the other
   decrypts, and after every call the two are equal.
   */
  lemma {:induction false} StaysInStep(c: Context, texts: seq<seq<byte>>)
    requires TakesAll(c, texts)
    ensures TakesAll(c, Datas(EncryptAll(c, texts)))
    ensures InStep(texts, EncryptAll(c, texts), DecryptAll(c, Datas(EncryptAll(c, texts))))
    decreases |texts|
  {
    hide Encrypt, Decrypt, Takes;
    if texts != [] {
      var r := Encrypt(c, texts[0]);
      DecryptInverse(c, texts[0]);
      StaysInStep(r.after, texts[1..]);
      var rest := EncryptAll(r.after, texts[1..]);
      var sent := [r] + rest;
      assert EncryptAll(c, texts) == sent;
      var d := Datas(sent);
      assert d[1..] == Datas(rest);
      SameTakes(c, r.after, texts, d, rest);
      var received := [Decrypt(c, r.data)] + DecryptAll(r.after, Datas(rest));
      assert DecryptAll(c, d) == received;
      hide EncryptAll, DecryptAll;
      InStepCons(texts, sent, received);
    }
  }

  lemma SameTakes(c: Context, after: Context, texts: seq<seq<byte>>, d: seq<seq<byte>>, rest: seq<Output<Context>>)
    requires |d| > 0 && Takes(c, |d[0]|) && d[1..] == Datas(rest) && TakesAll(after, Datas(rest))
    requires forall len: nat :: Takes(after, len) == Takes(c, len)
    ensures TakesAll(c, d)
  {
    hide Takes, Datas;
    forall i | 0 <= i < |d| ensures Takes(c, |d[i]|) {
      if i > 0 {
        assert d[i] == d[1..][i - 1];
      }
    }
  }

  lemma InStepCons(texts: seq<seq<byte>>, sent: seq<Output<Context>>, received: seq<Output<Context>>)
    requires |texts| == |sent| == |received| > 0
    requires received[0] == Output(texts[0], sent[0].after)
    requires InStep(texts[1..], sent[1..], received[1..])
    ensures InStep(texts, sent, received)
  {
    forall i | 0 <= i < |texts| ensures received[i] == Output(texts[i], sent[i].after) {
      if i > 0 {
        assert received[i] == received[1..][i - 1] && texts[i] == texts[1..][i - 1] && sent[i] == sent[1..][i - 1];
      }
    }
  }

  // ---------- triple DES with one key ----------

  /** When the first two keys and chains agree, triple DES is single DES with the third key. */
  lemma TripleIsSingle(ks: DesCbc.Triple<Des.DesContext>, ivs: DesCbc.Triple<Block>, s: seq<byte>)
    requires |s| % 8 == 0 && ks.first == ks.second && ivs.first == ivs.second
    ensures DesCbc.TripleEncrypt(ks, ivs, s).data == CbcEncrypt(Des.Cipher(ks.third, true), ivs.third, s).data
    ensures var after := DesCbc.TripleEncrypt(ks, ivs, s).after; after.first == after.second
  {
    Des.CipherInverse(ks.first, true);
    CbcDecrypts(Des.Cipher(ks.first, true), Des.Cipher(ks.first, false), ivs.first, s);
    hide CbcEncrypt, CbcDecrypt, Des.Cipher;
  }
}
