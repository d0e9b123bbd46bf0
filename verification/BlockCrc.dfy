/**
 The CRC the attack detector folds over words (deattack.c:33-71).  Folding crc_update over
 words is the CRC of their bytes; and with at most eight block indicators, one of them
 set, that CRC is never zero.
 */
module BlockCrc {
  import opened Bytes
  import opened MachineWords
  import opened Crc32

  /** The bytes of a word in memory, least significant first. */
  function WordBytes(w: word32): seq<byte> {
    [LowByte(w), LowByte(Shr8(w)), LowByte(Shr8(Shr8(w))), LowByte(Shr8(Shr8(Shr8(w))))]
  }

  /** crc_update: the new value of *a. */
  function Update(a: word32, b: word32): word32 {
    Crc(0, WordBytes(Xor(b, a)))
  }

  function Shift32(c: word32): word32 { Shift8(Shift8(Shift8(Shift8(c)))) }

  // ---------- words and bytes ----------

  /** Eight shift steps take in the low byte of w and leave the rest of it pending. */
  lemma PeelByte(c: word32, w: word32)
    ensures Shift8(Xor(c, w)) == Xor(Step(c, LowByte(w)), Shr8(w))
  {
    WordIsParts(w);
    XorFacts(c, Widen(LowByte(w)), Top(w));
    StepIsShift(c, LowByte(w));
    Shift8Xor(Xor(c, Widen(LowByte(w))), Top(w));
    Shift8Top(w);
    hide *;
  }

  lemma FourBytesIsZero(w: word32)
    ensures Shr8(Shr8(Shr8(Shr8(w)))) == 0
  {
  }

  lemma WordByteSteps(c: word32, w: word32)
    ensures Crc(c, WordBytes(w)) ==
            Step(Step(Step(Step(c, LowByte(w)), LowByte(Shr8(w))), LowByte(Shr8(Shr8(w)))),
                LowByte(Shr8(Shr8(Shr8(w)))))
  {
    hide Step, LowByte, Shr8;
    var s := WordBytes(w);
    var s1, s2, s3 := [s[1], s[2], s[3]], [s[2], s[3]], [s[3]];
    assert s[1..] == s1 && s1[1..] == s2 && s2[1..] == s3 && s3[1..] == [];
    var c1 := Step(c, s[0]);
    var c2 := Step(c1, s[1]);
    var c3 := Step(c2, s[2]);
    assert Crc(c, s) == Crc(c1, s1);
    assert Crc(c1, s1) == Crc(c2, s2);
    assert Crc(c2, s2) == Crc(c3, s3);
    assert Crc(c3, s3) == Crc(Step(c3, s[3]), []);
  }

  /** The CRC over the four bytes of a word is 32 shift steps. */
  lemma FourBytes(c: word32, w: word32)
    ensures Crc(c, WordBytes(w)) == Shift32(Xor(c, w))
  {
    WordByteSteps(c, w);
    var w1 := Shr8(w);
    var w2 := Shr8(w1);
    var w3 := Shr8(w2);
    var c1 := Step(c, LowByte(w));
    var c2 := Step(c1, LowByte(w1));
    var c3 := Step(c2, LowByte(w2));
    var c4 := Step(c3, LowByte(w3));
    PeelByte(c, w);
    PeelByte(c1, w1);
    PeelByte(c2, w2);
    PeelByte(c3, w3);
    FourBytesIsZero(w);
    XorFacts(c4, 0, 0);
    hide Crc, WordBytes, Step, Shift8, Xor, Shr8, LowByte;
  }

  /** crc_update continues the CRC over the bytes of its second argument. */
  lemma UpdateIsCrc(a: word32, b: word32)
    ensures Update(a, b) == Crc(a, WordBytes(b)) == Shift32(Xor(a, b))
  {
    FourBytes(0, Xor(b, a));
    FourBytes(a, b);
    XorFacts(0, Xor(b, a), 0);
    XorFacts(Xor(b, a), 0, 0);
    XorFacts(a, b, 0);
    hide Crc, WordBytes, Shift32, Xor;
  }

  function Fold(c: word32, words: seq<word32>): word32
    decreases |words|
  {
    if words == [] then c else Fold(Update(c, words[0]), words[1..])
  }

  function AllBytes(words: seq<word32>): seq<byte> {
    if words == [] then [] else WordBytes(words[0]) + AllBytes(words[1..])
  }

  /** Folding crc_update over words is the CRC of the message they form. */
  lemma {:induction false} FoldIsCrc(c: word32, words: seq<word32>)
    ensures Fold(c, words) == Crc(c, AllBytes(words))
    decreases |words|
  {
    hide Update, Crc, WordBytes;
    if words == [] {
      assert Crc(c, []) == c by { EmptyCrc(c); }
    } else {
      UpdateIsCrc(c, words[0]);
      FoldIsCrc(Update(c, words[0]), words[1..]);
      CrcConcat(c, WordBytes(words[0]), AllBytes(words[1..]));
    }
  }

  lemma EmptyCrc(c: word32)
    ensures Crc(c, []) == c
  {
  }

  // ---------- indicators ----------

  /** One block contributes the words 1, 0 when it is the block sought, else 0, 0. */
  function Indicate(c: word32, flag: bool): word32 {
    Update(Update(c, if flag then 1 else 0), 0)
  }

  function FoldFlags(c: word32, flags: seq<bool>): word32
    decreases |flags|
  {
    if flags == [] then c else FoldFlags(Indicate(c, flags[0]), flags[1..])
  }

  function Words(flags: seq<bool>): seq<word32> {
    if flags == [] then [] else [if flags[0] then 1 else 0, 0] + Words(flags[1..])
  }

  lemma WordOctets()
    ensures WordBytes(0) == [0, 0, 0, 0] && WordBytes(1) == [1, 0, 0, 0]
  {
  }

  lemma TwoWords(v: word32, w: word32, rest: seq<word32>)
    ensures AllBytes([v, w] + rest) == WordBytes(v) + WordBytes(w) + AllBytes(rest)
  {
    hide WordBytes;
    var all := [v, w] + rest;
    assert all[0] == v && all[1..][0] == w && all[1..][1..] == rest;
  }

  /** An indicator is eight octets of the message, of which the first is one for a set flag. */
  lemma IndicatorOctets(flag: bool, flags: seq<bool>)
    ensures AllBytes(Words([])) == []
    ensures AllBytes(Words([flag] + flags)) == [if flag then 1 else 0, 0, 0, 0, 0, 0, 0, 0] + AllBytes(Words(flags))
  {
    hide WordBytes;
    assert ([flag] + flags)[1..] == flags;
    WordOctets();
    TwoWords(if flag then 1 else 0, 0, Words(flags));
    hide AllBytes, Words;
  }

  lemma {:induction false} FoldFlagsIsFold(c: word32, flags: seq<bool>)
    ensures FoldFlags(c, flags) == Fold(c, Words(flags))
    decreases |flags|
  {
    hide Update;
    if flags != [] {
      FoldFlagsIsFold(Indicate(c, flags[0]), flags[1..]);
      var ws := Words(flags);
      assert ws[1..][1..] == Words(flags[1..]);
      assert Fold(c, ws) == Fold(Update(c, ws[0]), ws[1..]);
    }
  }

  lemma {:induction false} FoldFlagsConcat(c: word32, f: seq<bool>, g: seq<bool>)
    ensures FoldFlags(c, f + g) == FoldFlags(FoldFlags(c, f), g)
    decreases |f|
  {
    hide Indicate;
    if f == [] {
      assert f + g == g;
    } else {
      FoldFlagsConcat(Indicate(c, f[0]), f[1..], g);
      assert (f + g)[1..] == f[1..] + g;
    }
  }

  // ---------- few indicators never cancel ----------

  function Shift64(c: word32): word32 { Shift32(Shift32(c)) }

  lemma Shift64Xor(x: word32, y: word32)
    ensures Shift64(Xor(x, y)) == Xor(Shift64(x), Shift64(y))
  {
    Shift32Xor(x, y);
    Shift32Xor(Shift32(x), Shift32(y));
    hide Shift32, Xor;
  }

  lemma Shift32Xor(x: word32, y: word32)
    ensures Shift32(Xor(x, y)) == Xor(Shift32(x), Shift32(y))
  {
    var x1, y1 := Shift8(x), Shift8(y);
    var x2, y2 := Shift8(x1), Shift8(y1);
    var x3, y3 := Shift8(x2), Shift8(y2);
    Shift8Xor(x, y);
    Shift8Xor(x1, y1);
    Shift8Xor(x2, y2);
    Shift8Xor(x3, y3);
    hide Shift8, Xor;
  }

  function Pick(flag: bool, w: word32): word32 { if flag then w else 0 }

  lemma IndicateIs(c: word32, flag: bool)
    ensures Indicate(c, flag) == Shift64(Xor(c, Pick(flag, 1)))
  {
    var b := Pick(flag, 1);
    UpdateIsCrc(c, b);
    UpdateIsCrc(Update(c, b), 0);
    XorFacts(Update(c, b), 0, 0);
    hide Update, Shift32, Xor, Crc;
  }

  /** n blocks later. */
  function Later(c: word32, n: nat): word32
    decreases n
  {
    if n == 0 then c else Later(Shift64(c), n - 1)
  }

  lemma {:induction false} LaterXor(x: word32, y: word32, n: nat)
    ensures Later(Xor(x, y), n) == Xor(Later(x, n), Later(y, n))
    decreases n
  {
    hide Shift64, Xor;
    if n > 0 {
      Shift64Xor(x, y);
      LaterXor(Shift64(x), Shift64(y), n - 1);
    }
  }

  lemma ShiftZero()
    ensures Shift64(0) == 0
  {
    assert Shift(0) == 0;
    hide Shift;
  }

  lemma {:induction false} LaterPick(flag: bool, n: nat)
    ensures Later(Pick(flag, 1), n) == Pick(flag, Later(1, n))
    decreases n
  {
    hide Shift64;
    if !flag { LaterZero(n); }
  }

  lemma {:induction false} LaterZero(n: nat)
    ensures Later(0, n) == 0
    decreases n
  {
    ShiftZero();
    hide Shift64;
    if n > 0 { LaterZero(n - 1); }
  }

  /** The contributions of the flags, each shifted by the blocks that follow it. */
  function Sum(flags: seq<bool>): word32
    decreases |flags|
  {
    if flags == [] then 0 else Xor(Pick(flags[0], Later(1, |flags|)), Sum(flags[1..]))
  }

  lemma {:induction false} FoldFlagsIsSum(c: word32, flags: seq<bool>)
    ensures FoldFlags(c, flags) == Xor(Later(c, |flags|), Sum(flags))
    decreases |flags|
  {
    hide Shift64, Xor, Indicate, Pick;
    if flags == [] {
      XorFacts(c, 0, 0);
    } else {
      var n, b := |flags| - 1, Pick(flags[0], 1);
      IndicateIs(c, flags[0]);
      FoldFlagsIsSum(Indicate(c, flags[0]), flags[1..]);
      LaterXor(c, b, n + 1);
      LaterPick(flags[0], n + 1);
      XorFacts(Later(c, n + 1), Later(b, n + 1), Sum(flags[1..]));
      assert Later(Xor(c, b), n + 1) == Later(Shift64(Xor(c, b)), n);
    }
  }

  // ---------- the contributions of the last eight blocks ----------

  lemma Basis0()
    ensures Shift64(0x00000001) == 0xccaa009e
  {
  }

  lemma Basis1()
    ensures Shift64(0xccaa009e) == 0xae689191
  {
  }

  lemma Basis2()
    ensures Shift64(0xae689191) == 0x81256527
  {
  }

  lemma Basis3()
    ensures Shift64(0x81256527) == 0xf1da05aa
  {
  }

  lemma Basis4()
    ensures Shift64(0xf1da05aa) == 0xaf449247
  {
  }

  lemma Basis5()
    ensures Shift64(0xaf449247) == 0x3db1ecdc
  {
  }

  lemma Basis6()
    ensures Shift64(0x3db1ecdc) == 0x1d9513d7
  {
  }

  lemma Basis7()
    ensures Shift64(0x1d9513d7) == 0x8f352d95
  {
  }

  /** What a flag k blocks before the end contributes, for k from 1 to 8. */
  function Basis(k: nat): word32 {
    match k
    case 1 => 0xccaa009e
    case 2 => 0xae689191
    case 3 => 0x81256527
    case 4 => 0xf1da05aa
    case 5 => 0xaf449247
    case 6 => 0x3db1ecdc
    case 7 => 0x1d9513d7
    case _ => 0x8f352d95
  }

  lemma BasisStep(k: nat)
    requires 1 <= k < 8
    ensures Shift64(Basis(k)) == Basis(k + 1)
  {
    hide Shift64;
    Basis1();
    Basis2();
    Basis3();
    Basis4();
    Basis5();
    Basis6();
    Basis7();
  }

  lemma {:induction false} LaterBasis(k: nat, n: nat)
    requires 1 <= k && k + n <= 8
    ensures Later(Basis(k), n) == Basis(k + n)
    decreases n
  {
    hide Shift64, Basis;
    if n > 0 {
      BasisStep(k);
      LaterBasis(k + 1, n - 1);
    }
  }

  lemma LaterOne(n: nat)
    requires 1 <= n <= 8
    ensures Later(1, n) == Basis(n)
  {
    hide Shift64, Basis;
    BasisStart();
    LaterBasis(1, n - 1);
    assert Later(1, n) == Later(Shift64(1), n - 1);
  }

  lemma BasisStart()
    ensures Shift64(1) == Basis(1)
  {
    hide Shift64;
    Basis0();
  }

  /** The contributions of eight flags, the last block's flag first. */
  function Combined(a: bool, b: bool, c: bool, d: bool, e: bool, f: bool, g: bool, h: bool): word32 {
    Xor(Pick(h, Basis(8)), Xor(Pick(g, Basis(7)), Xor(Pick(f, Basis(6)), Xor(Pick(e, Basis(5)), Xor(Pick(d,
        Basis(4)), Xor(Pick(c, Basis(3)), Xor(Pick(b, Basis(2)), Xor(Pick(a, Basis(1)), 0))))))))
  }

  /** The eight contributions are linearly independent. */
  lemma Independent(a: bool, b: bool, c: bool, d: bool, e: bool, f: bool, g: bool, h: bool)
    requires a || b || c || d || e || f || g || h
    ensures Combined(a, b, c, d, e, f, g, h) != 0
  {
  }

  lemma SumOfEight(f: seq<bool>)
    requires |f| == 8
    ensures Sum(f) == Combined(f[7], f[6], f[5], f[4], f[3], f[2], f[1], f[0])
  {
    hide Pick, Basis, Later, Xor, Sum;
    SumTail(f, 8);
    SumTail(f, 7);
    SumTail(f, 6);
    SumTail(f, 5);
    SumTail(f, 4);
    SumTail(f, 3);
    SumTail(f, 2);
    SumTail(f, 1);
    SumNothing();
    assert f[8..] == [] && f[0..] == f;
  }

  lemma SumNothing()
    ensures Sum([]) == 0
  {
  }

  lemma SumTail(f: seq<bool>, n: nat)
    requires |f| == 8 && 1 <= n <= 8
    ensures Sum(f[8 - n..]) == Xor(Pick(f[8 - n], Basis(n)), Sum(f[9 - n..]))
  {
    hide Pick, Basis, Later, Xor;
    LaterOne(n);
    assert f[8 - n..][1..] == f[9 - n..];
  }

  lemma {:induction false} FoldFalse(n: nat)
    ensures FoldFlags(0, seq(n, _ => false)) == 0
  {
    hide Indicate;
    if n > 0 {
      IndicateNothing();
      FoldFalse(n - 1);
      assert seq(n, _ => false)[1..] == seq(n - 1, _ => false);
    }
  }

  lemma IndicateNothing()
    ensures Indicate(0, false) == 0
  {
    IndicateIs(0, false);
    XorFacts(0, 0, 0);
    ShiftZero();
    hide Indicate, Shift64, Xor;
  }

  /** With at most eight flags, one of them set, the folded CRC is not zero. */
  lemma FewFlagsNeverCancel(flags: seq<bool>)
    requires |flags| <= 8 && true in flags
    ensures FoldFlags(0, flags) != 0
  {
    hide Indicate, Xor, Later, Sum, Combined, FoldFlags;
    var n := 8 - |flags|;
    var pad := seq(n, _ => false);
    var f := pad + flags;
    FoldFalse(n);
    FoldFlagsConcat(0, pad, flags);
    FoldFlagsIsSum(0, f);
    LaterZero(8);
    XorFacts(0, Sum(f), 0);
    XorFacts(Sum(f), 0, 0);
    SumOfEight(f);
    Independent(f[7], f[6], f[5], f[4], f[3], f[2], f[1], f[0]);
  }
}
