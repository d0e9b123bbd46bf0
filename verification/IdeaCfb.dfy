/**
 The IDEA key schedule and IDEA in CFB mode (idea.c:46-69, 145-252).
 */
module IdeaCfb {
  import opened Bytes
  import opened MachineWords
  import opened Modes
  import opened Idea
  import Numbers

  // ---------- the key schedule ----------

  /** GET_16BIT */
  function GetHalf(a: byte, b: byte): half { a as nat * 256 + b as nat }

  /** Nine bits of k and seven of l: (k << 9 | l >> 7) & 0xffff; the two share no bit. */
  function Shifted(k: half, l: half): half { (k * 512 + l / 128) % TWO16 }

  /** Subkey i, for every i: idea_set_key stores the first 52. */
  function Subkey(key: seq<half>, i: nat): half
    requires |key| == 8
    decreases i
  {
    if i < 8 then key[i]
    else Shifted(Subkey(key, i / 8 * 8 - 8 + (i + 1) % 8), Subkey(key, i / 8 * 8 - 8 + (i + 2) % 8))
  }

  /** Eight words as one number of 128 bits, the first word highest. */
  function Number(a: half, b: half, c: half, d: half, e: half, f: half, g: half, h: half): nat {
    a * 0x1_0000_0000_0000_0000_0000_0000_0000 + b * 0x1_0000_0000_0000_0000_0000_0000 +
    c * 0x1_0000_0000_0000_0000_0000 + d * 0x1_0000_0000_0000_0000 +
    e * 0x1_0000_0000_0000 + f * 0x1_0000_0000 + g * 0x1_0000 + h
  }

  const TWO25: nat := 0x200_0000
  const TWO103: nat := 0x80_0000_0000_0000_0000_0000_0000

  /** A number of 128 bits rotated left by 25. */
  function Rotate25(v: nat): nat { v % TWO103 * TWO25 + v / TWO103 }

  function Rotated(v: nat, n: nat): nat
    decreases n
  {
    if n == 0 then v else Rotate25(Rotated(v, n - 1))
  }

  function Place(j: nat): nat
    requires j < 8
  {
    match j
    case 0 => 0x1_0000_0000_0000_0000_0000_0000_0000
    case 1 => 0x1_0000_0000_0000_0000_0000_0000
    case 2 => 0x1_0000_0000_0000_0000_0000
    case 3 => 0x1_0000_0000_0000_0000
    case 4 => 0x1_0000_0000_0000
    case 5 => 0x1_0000_0000
    case 6 => 0x1_0000
    case _ => 1
  }

  /** The j-th 16-bit word of a 128-bit number, counted from the highest. */
  function WordAt(v: nat, j: nat): half
    requires j < 8
  {
    v / Place(j) % TWO16
  }

  /** The eight subkeys from 8 * g on, as one number. */
  function Group(key: seq<half>, g: nat): nat
    requires |key| == 8
  {
    Number(Subkey(key, 8 * g), Subkey(key, 8 * g + 1), Subkey(key, 8 * g + 2), Subkey(key, 8 * g + 3),
           Subkey(key, 8 * g + 4), Subkey(key, 8 * g + 5), Subkey(key, 8 * g + 6), Subkey(key, 8 * g + 7))
  }

  /** The words of a number rotated by 25 bits, from the words of the number. */
  lemma RotateWords(a: half, b: half, c: half, d: half, e: half, f: half, g: half, h: half)
    ensures Rotate25(Number(a, b, c, d, e, f, g, h)) ==
            Number(Shifted(b, c), Shifted(c, d), Shifted(d, e), Shifted(e, f),
                   Shifted(f, g), Shifted(g, h), Shifted(h, a), Shifted(a, b))
  {
    var v := Number(a, b, c, d, e, f, g, h);
    var top := a * 512 + b / 128;
    var rest := b % 128 * 0x1_0000_0000_0000_0000_0000_0000 +
      c * 0x1_0000_0000_0000_0000_0000 + d * 0x1_0000_0000_0000_0000 +
      e * 0x1_0000_0000_0000 + f * 0x1_0000_0000 + g * 0x1_0000 + h;
    Numbers.QuotientUnique(v, TWO103, top, rest);
    ShiftedParts(a, b);
    ShiftedParts(b, c);
    ShiftedParts(c, d);
    ShiftedParts(d, e);
    ShiftedParts(e, f);
    ShiftedParts(f, g);
    ShiftedParts(g, h);
    ShiftedParts(h, a);
    hide Shifted;
  }

  lemma ShiftedParts(k: half, l: half)
    ensures Shifted(k, l) == k % 128 * 512 + l / 128
  {
    Numbers.QuotientUnique(k * 512 + l / 128, TWO16, k / 128, k % 128 * 512 + l / 128);
  }

  lemma Indices(g: nat, j: nat)
    requires j < 8
    ensures (8 * g + j) / 8 == g && (8 * g + j) % 8 == j
    ensures (8 * g + j + 1) % 8 == (j + 1) % 8 && (8 * g + j + 2) % 8 == (j + 2) % 8
  {
    Numbers.QuotientUnique(8 * g + j, 8, g, j);
    Numbers.QuotientUnique(8 * g + j + 1, 8, if j < 7 then g else g + 1, (j + 1) % 8);
    Numbers.QuotientUnique(8 * g + j + 2, 8, if j < 6 then g else g + 1, (j + 2) % 8);
  }

  lemma NextSubkey(key: seq<half>, g: nat, j: nat)
    requires |key| == 8 && j < 8
    ensures Subkey(key, 8 * (g + 1) + j) ==
            Shifted(Subkey(key, 8 * g + (j + 1) % 8), Subkey(key, 8 * g + (j + 2) % 8))
  {
    hide Shifted;
    Indices(g + 1, j);
    UnfoldSubkey(key, 8 * (g + 1) + j, 8 * g, (j + 1) % 8, (j + 2) % 8);
  }

  lemma UnfoldSubkey(key: seq<half>, i: nat, base: nat, j: nat, k: nat)
    requires |key| == 8 && i >= 8 && i / 8 * 8 - 8 == base && j == (i + 1) % 8 && k == (i + 2) % 8
    ensures Subkey(key, i) == Shifted(Subkey(key, base + j), Subkey(key, base + k))
  {
    hide Shifted;
  }

  lemma GroupRotates(key: seq<half>, g: nat)
    requires |key| == 8
    ensures Group(key, g + 1) == Rotate25(Group(key, g))
  {
    hide Number, Shifted, Rotate25, Subkey;
    NextSubkey(key, g, 0);
    NextSubkey(key, g, 1);
    NextSubkey(key, g, 2);
    NextSubkey(key, g, 3);
    NextSubkey(key, g, 4);
    NextSubkey(key, g, 5);
    NextSubkey(key, g, 6);
    NextSubkey(key, g, 7);
    RotateWords(Subkey(key, 8 * g), Subkey(key, 8 * g + 1), Subkey(key, 8 * g + 2), Subkey(key, 8 * g + 3),
                Subkey(key, 8 * g + 4), Subkey(key, 8 * g + 5), Subkey(key, 8 * g + 6), Subkey(key, 8 * g + 7));
  }

  lemma {:induction false} GroupIsRotated(key: seq<half>, g: nat)
    requires |key| == 8
    ensures Group(key, g) == Rotated(Group(key, 0), g)
    decreases g
  {
    hide Group, Rotate25;
    if g > 0 {
      GroupIsRotated(key, g - 1);
      GroupRotates(key, g - 1);
    }
  }

  lemma NumberWords(a: half, b: half, c: half, d: half, e: half, f: half, g: half, h: half)
    ensures var v := Number(a, b, c, d, e, f, g, h);
            WordAt(v, 0) == a && WordAt(v, 1) == b && WordAt(v, 2) == c && WordAt(v, 3) == d &&
            WordAt(v, 4) == e && WordAt(v, 5) == f && WordAt(v, 6) == g && WordAt(v, 7) == h
  {
    var v := Number(a, b, c, d, e, f, g, h);
    var r1 := g * 0x1_0000 + h;
    var r2 := f * 0x1_0000_0000 + r1;
    var r3 := e * 0x1_0000_0000_0000 + r2;
    var r4 := d * 0x1_0000_0000_0000_0000 + r3;
    var r5 := c * 0x1_0000_0000_0000_0000_0000 + r4;
    var r6 := b * 0x1_0000_0000_0000_0000_0000_0000 + r5;
    var q1 := a;
    var q2 := q1 * TWO16 + b;
    var q3 := q2 * TWO16 + c;
    var q4 := q3 * TWO16 + d;
    var q5 := q4 * TWO16 + e;
    var q6 := q5 * TWO16 + f;
    var q7 := q6 * TWO16 + g;
    Numbers.QuotientUnique(v, Place(0), q1, r6);
    Numbers.QuotientUnique(v, Place(1), q2, r5);
    Numbers.QuotientUnique(v, Place(2), q3, r4);
    Numbers.QuotientUnique(v, Place(3), q4, r3);
    Numbers.QuotientUnique(v, Place(4), q5, r2);
    Numbers.QuotientUnique(v, Place(5), q6, r1);
    Numbers.QuotientUnique(v, Place(6), q7, h);
    Numbers.QuotientUnique(q2, TWO16, q1, b);
    Numbers.QuotientUnique(q3, TWO16, q2, c);
    Numbers.QuotientUnique(q4, TWO16, q3, d);
    Numbers.QuotientUnique(q5, TWO16, q4, e);
    Numbers.QuotientUnique(q6, TWO16, q5, f);
    Numbers.QuotientUnique(q7, TWO16, q6, g);
    Numbers.QuotientUnique(v, TWO16, q7, h);
    hide Number;
  }

  lemma GroupWord(key: seq<half>, g: nat, j: nat)
    requires |key| == 8 && j < 8
    ensures WordAt(Group(key, g), j) == Subkey(key, 8 * g + j)
  {
    hide Number, WordAt, Subkey;
    NumberWords(Subkey(key, 8 * g), Subkey(key, 8 * g + 1), Subkey(key, 8 * g + 2), Subkey(key, 8 * g + 3),
                Subkey(key, 8 * g + 4), Subkey(key, 8 * g + 5), Subkey(key, 8 * g + 6), Subkey(key, 8 * g + 7));
  }

  /** The subkeys are the words of the key rotated by 25 bits for every eight of them. */
  lemma SubkeysRotate(key: seq<half>, i: nat)
    requires |key| == 8
    ensures Subkey(key, i) ==
            WordAt(Rotated(Number(key[0], key[1], key[2], key[3], key[4], key[5], key[6], key[7]), i / 8), i % 8)
  {
    GroupStarts(key);
    hide *;
    GroupIsRotated(key, i / 8);
    GroupWord(key, i / 8, i % 8);
  }

  lemma GroupStarts(key: seq<half>)
    requires |key| == 8
    ensures Group(key, 0) == Number(key[0], key[1], key[2], key[3], key[4], key[5], key[6], key[7])
  {
    hide Number;
  }

  /** The eight words of a user key of sixteen octets. */
  function KeyWords(key: seq<byte>): (k: seq<half>)
    requires |key| >= 16
    ensures |k| == 8
  {
    seq(8, i requires 0 <= i < 8 => GetHalf(key[2 * i], key[2 * i + 1]))
  }

  /** idea_set_key. */
  method SetKey(keys: array<half>, key: seq<byte>)
    requires keys.Length == 52 && |key| >= 16
    modifies keys
    ensures forall i :: 0 <= i < 52 ==> keys[i] == Subkey(KeyWords(key), i)
  {
    hide Shifted, GetHalf;
    var i := 0;
    while i < 8
      invariant i <= 8
      invariant forall j :: 0 <= j < i ==> keys[j] == Subkey(KeyWords(key), j)
    {
      keys[i] := GetHalf(key[2 * i], key[2 * i + 1]);
      i := i + 1;
    }
    Expand(keys, KeyWords(key));
  }

  /** Its second loop; at is where the pointer keys points. */
  method Expand(keys: array<half>, ghost key: seq<half>)
    requires keys.Length == 52 && |key| == 8
    requires forall j :: 0 <= j < 8 ==> keys[j] == Subkey(key, j)
    modifies keys
    ensures forall j :: 0 <= j < 52 ==> keys[j] == Subkey(key, j)
  {
    hide *;
    var i, at := 8, 0;
    ghost var g := 0;
    while i < 52
      invariant 8 <= i <= 52 && at == 8 * g && at < i <= at + 8
      invariant forall j :: 0 <= j < i ==> keys[j] == Subkey(key, j)
    {
      ghost var j := if i == at + 8 then 0 else i - at;
      Indices(if i == at + 8 then g + 1 else g, j);
      if i % 8 == 0 {
        at := at + 8;
        g := g + 1;
      }
      assert i == 8 * g + j;
      NextSubkey(key, g - 1, j);
      keys[at + i % 8] := Shifted(keys[at + (i + 1) % 8 - 8], keys[at + (i + 2) % 8 - 8]);
      i := i + 1;
    }
  }

  // ---------- the transform in its loop ----------

  /** idea_transform as a function on blocks. */
  function Cipher(keys: Keys): Block -> Block {
    x => TransformBlock(keys, x)
  }

  function TransformBlock(keys: Keys, x: Block): Block {
    var out := Transform(keys, x.l as word, x.r as word);
    Block(out.l as word32, out.r as word32)
  }

  /** idea_transform. */
  method RunTransform(keys: Keys, l: word, r: word) returns (output: Pair)
    ensures output == Transform(keys, l, r)
  {
    hide Round, Finish, Begin;
    var x := Begin(l, r);
    var round := 0;
    while round < 8
      invariant round <= 8
      invariant x == Rounds(keys, Begin(l, r), round)
    {
      x := Round(keys, x, 6 * round);
      round := round + 1;
    }
    output := Finish(keys, x);
  }

  method EncryptOne(keys: Keys, x: Block) returns (y: Block)
    ensures y == Cipher(keys)(x)
  {
    hide Transform;
    var out := RunTransform(keys, x.l as word, x.r as word);
    y := Block(out.l as word32, out.r as word32);
  }

  /** Whole blocks of eight octets. */
  function Whole(len: nat): (w: nat)
    ensures len <= w < len + 8 && w % 8 == 0
  {
    (len + 7) / 8 * 8
  }

  /** The first n octets are those of done, and the others as they were. */
  ghost predicate Written(now: seq<byte>, was: seq<byte>, done: seq<byte>, n: nat)
    requires n <= |done| && n <= |was|
  {
    |now| == |was| && now[..n] == done[..n] && now[n..] == was[n..]
  }

  lemma WrittenAll(now: seq<byte>, was: seq<byte>, done: seq<byte>, n: nat)
    requires n <= |done| && n <= |was| && Written(now, was, done, n)
    ensures now[..n] == done[..n] && now[n..] == was[n..]
  {
  }

  /** The block ahead, and what is behind it. */
  lemma Ahead(rest: seq<byte>, todo: seq<byte>)
    requires 8 <= |todo| <= |rest| && rest[..|todo|] == todo
    ensures rest[..8] == todo[..8] && rest[8..][..|todo| - 8] == todo[8..]
  {
  }

  /** What the loops do with a block: it is stored up to the end of the output. */
  method PutBlock(dest: array<byte>, i: nat, b: Block, len: nat, ghost src: array<byte>, ghost was: seq<byte>,
      ghost done: seq<byte>)
    requires i < len <= dest.Length && i + 8 <= src.Length && |done| == i && |was| == dest.Length
    requires Written(dest[..], was, done, i)
    modifies dest
    ensures Written(dest[..], was, done + BytesMsb(b), if i + 8 < len then i + 8 else len)
    ensures i + 8 < len ==> src[i + 8..] == old(src[i..])[8..]
  {
    hide BytesMsb;
    var s := BytesMsb(b);
    assert dest[..i] == done;
    if i + 8 <= len {
      Store(dest, i, s, src);
    } else {
      StorePart(dest, i, b, len - i);
      assert (done + s)[..len] == done + s[..len - i];
    }
  }

  /** The loop of idea_cfb_encrypt: whole blocks, and what is left of the last one. */
  method EncryptBlocks(keys: Keys, iv: Block, dest: array<byte>, src: array<byte>, len: nat) returns (chain: Block)
    requires len <= dest.Length && Whole(len) <= src.Length
    modifies dest
    ensures var r := CfbEncrypt(Cipher(keys), iv, old(src[..Whole(len)]));
            chain == r.after && dest[..len] == r.data[..len] && dest[len..] == old(dest[len..])
  {
    hide BlockMsb, BytesMsb, XorBlock, CfbEncrypt, Progress, Cipher, Whole;
    ghost var e, w, was := Cipher(keys), Whole(len), dest[..];
    ghost var done, todo, k, n := [], src[..w], 0, w / 8;
    assert w == 8 * n;
    ghost var all := CfbEncrypt(e, iv, todo);
    chain := iv;
    assert Written(dest[..], was, done, 0) && src[0..][..w] == todo;
    hide Written;
    Started(CfbEncrypt(e, chain, todo));
    var i := 0;
    while i < len
      invariant i == |done| == 8 * k && k <= n && |todo| == w - i
      invariant i < len ==> |src[i..]| >= w - i && src[i..][..w - i] == todo
      invariant Written(dest[..], was, done, if i < len then i else len)
      invariant Progress(done, CfbEncrypt(e, chain, todo), all)
    {
      CfbEncryptStep(e, done, chain, todo, all);
      var out := EncryptOne(keys, chain);
      var p := Load(src, i);
      Ahead(src[i..], todo);
      chain := XorBlock(out, BlockMsb(p));
      PutBlock(dest, i, chain, len, src, was, done);
      done, todo := done + BytesMsb(chain), todo[8..];
      i := i + 8;
      k := k + 1;
    }
    WrittenAll(dest[..], was, done, len);
    NoBlocksLeft(e, chain);
    Finished(done, CfbEncrypt(e, chain, todo), all);
  }

  /** The loop of idea_cfb_decrypt: whole blocks, and what is left of the last one. */
  method DecryptBlocks(keys: Keys, iv: Block, dest: array<byte>, src: array<byte>, len: nat) returns (chain: Block)
    requires len <= dest.Length && Whole(len) <= src.Length
    modifies dest
    ensures var r := CfbDecrypt(Cipher(keys), iv, old(src[..Whole(len)]));
            chain == r.after && dest[..len] == r.data[..len] && dest[len..] == old(dest[len..])
  {
    hide BlockMsb, BytesMsb, XorBlock, CfbDecrypt, Progress, Cipher, Whole;
    ghost var e, w, was := Cipher(keys), Whole(len), dest[..];
    ghost var done, todo, k, n := [], src[..w], 0, w / 8;
    assert w == 8 * n;
    ghost var all := CfbDecrypt(e, iv, todo);
    chain := iv;
    assert Written(dest[..], was, done, 0) && src[0..][..w] == todo;
    hide Written;
    Started(CfbDecrypt(e, chain, todo));
    var i := 0;
    while i < len
      invariant i == |done| == 8 * k && k <= n && |todo| == w - i
      invariant i < len ==> |src[i..]| >= w - i && src[i..][..w - i] == todo
      invariant Written(dest[..], was, done, if i < len then i else len)
      invariant Progress(done, CfbDecrypt(e, chain, todo), all)
    {
      CfbDecryptStep(e, done, chain, todo, all);
      var out := EncryptOne(keys, chain);
      var p := Load(src, i);
      Ahead(src[i..], todo);
      chain := BlockMsb(p);
      var plain := XorBlock(out, chain);
      PutBlock(dest, i, plain, len, src, was, done);
      done, todo := done + BytesMsb(plain), todo[8..];
      i := i + 8;
      k := k + 1;
    }
    WrittenAll(dest[..], was, done, len);
    NoBlocksLeft(e, chain);
    Finished(done, CfbDecrypt(e, chain, todo), all);
  }

  /** idea_cfb_encrypt; dest may be src.  The input is read up to the end of the last block. */
  method CfbEncryptBuffer(keys: Keys, iv: array<byte>, dest: array<byte>, src: array<byte>, len: nat)
    requires iv.Length == 8 && len <= dest.Length && Whole(len) <= src.Length
    requires iv != dest && iv != src
    modifies iv, dest
    ensures var r := old(CfbEncrypt(Cipher(keys), BlockMsb(iv[..]), src[..Whole(len)]));
            dest[..len] == r.data[..len] && dest[len..] == old(dest[len..]) && iv[..] == BytesMsb(r.after)
  {
    hide *;
    var chain := EncryptBlocks(keys, BlockMsb(iv[..]), dest, src, len);
    Store(iv, 0, BytesMsb(chain), iv);
    assert iv[..] == iv[..8];
  }

  /** idea_cfb_decrypt; dest may be src.  The input is read up to the end of the last block. */
  method CfbDecryptBuffer(keys: Keys, iv: array<byte>, dest: array<byte>, src: array<byte>, len: nat)
    requires iv.Length == 8 && len <= dest.Length && Whole(len) <= src.Length
    requires iv != dest && iv != src
    modifies iv, dest
    ensures var r := old(CfbDecrypt(Cipher(keys), BlockMsb(iv[..]), src[..Whole(len)]));
            dest[..len] == r.data[..len] && dest[len..] == old(dest[len..]) && iv[..] == BytesMsb(r.after)
  {
    hide *;
    var chain := DecryptBlocks(keys, BlockMsb(iv[..]), dest, src, len);
    Store(iv, 0, BytesMsb(chain), iv);
    assert iv[..] == iv[..8];
  }
}
