/**
 DES (des.c:372-450) against the standard's description: which bits of the block the initial
 permutation takes to which half, which bits of a half and of the subkey select in which box, and
 the order of the rounds.  Bit 0 of a word is its lowest.
 */
module DesRounds {
  import opened Bytes
  import opened MachineWords
  import opened Des
  import DesKeys

  // ---------- the initial permutation ----------

  /** The even-numbered bits of all octets of the block, 2, 4, 6 and 8, the last octet first. */
  function EvenBits(l: word32, r: word32): word32 {
    DesKeys.Column(l, r, 6) | (DesKeys.Column(l, r, 4) << 8) |
    (DesKeys.Column(l, r, 2) << 16) | (DesKeys.Column(l, r, 0) << 24)
  }

  /** The odd-numbered bits, 1, 3, 5 and 7. */
  function OddBits(l: word32, r: word32): word32 {
    DesKeys.Column(l, r, 7) | (DesKeys.Column(l, r, 5) << 8) |
    (DesKeys.Column(l, r, 3) << 16) | (DesKeys.Column(l, r, 1) << 24)
  }

  // the moves of IP one after the other

  function Moved1(l: word32, r: word32): Block {
    var t := ((r >> 4) ^ l) & 0x0f0f0f0f; var r := r ^ (t << 4); var l := l ^ t;
    Block(l, r)
  }

  function Moved2(l: word32, r: word32): Block {
    var t := ((r >> 4) ^ l) & 0x0f0f0f0f; var r := r ^ (t << 4); var l := l ^ t;
    var t := ((l >> 16) ^ r) & 0x0000ffff; var l := l ^ (t << 16); var r := r ^ t;
    Block(l, r)
  }

  function Moved3(l: word32, r: word32): Block {
    var t := ((r >> 4) ^ l) & 0x0f0f0f0f; var r := r ^ (t << 4); var l := l ^ t;
    var t := ((l >> 16) ^ r) & 0x0000ffff; var l := l ^ (t << 16); var r := r ^ t;
    var t := ((r >> 2) ^ l) & 0x33333333; var r := r ^ (t << 2); var l := l ^ t;
    Block(l, r)
  }

  function Moved4(l: word32, r: word32): Block {
    var t := ((r >> 4) ^ l) & 0x0f0f0f0f; var r := r ^ (t << 4); var l := l ^ t;
    var t := ((l >> 16) ^ r) & 0x0000ffff; var l := l ^ (t << 16); var r := r ^ t;
    var t := ((r >> 2) ^ l) & 0x33333333; var r := r ^ (t << 2); var l := l ^ t;
    var t := ((l >> 8) ^ r) & 0x00ff00ff; var l := l ^ (t << 8); var r := r ^ t;
    Block(l, r)
  }

  function Moved5(l: word32, r: word32): Block {
    var t := ((r >> 4) ^ l) & 0x0f0f0f0f; var r := r ^ (t << 4); var l := l ^ t;
    var t := ((l >> 16) ^ r) & 0x0000ffff; var l := l ^ (t << 16); var r := r ^ t;
    var t := ((r >> 2) ^ l) & 0x33333333; var r := r ^ (t << 2); var l := l ^ t;
    var t := ((l >> 8) ^ r) & 0x00ff00ff; var l := l ^ (t << 8); var r := r ^ t;
    var t := ((r >> 1) ^ l) & 0x55555555; var r := r ^ (t << 1); var l := l ^ t;
    Block(l, r)
  }

  lemma Move1(l: word32, r: word32)
    ensures PermOpSwapped(Block(l, r), 4, 0x0f0f0f0f) == Moved1(l, r)
  {
  }

  lemma Move2(l: word32, r: word32)
    ensures PermOp(Moved1(l, r), 16, 0x0000ffff) == Moved2(l, r)
  {
  }

  lemma Move3(l: word32, r: word32)
    ensures PermOpSwapped(Moved2(l, r), 2, 0x33333333) == Moved3(l, r)
  {
  }

  lemma Move4(l: word32, r: word32)
    ensures PermOp(Moved3(l, r), 8, 0x00ff00ff) == Moved4(l, r)
  {
  }

  lemma Move5(l: word32, r: word32)
    ensures PermOpSwapped(Moved4(l, r), 1, 0x55555555) == Moved5(l, r)
  {
  }

  lemma LeftBits(l: word32, r: word32)
    ensures Moved5(l, r).l == OddBits(l, r)
  {
  }

  lemma RightBits(l: word32, r: word32)
    ensures Moved5(l, r).r == EvenBits(l, r)
  {
  }

  /** The initial permutation takes the odd-numbered bits to the left word and the even-numbered to the right. */
  lemma InitialPermutation(x: Block)
    ensures IP(x) == Block(OddBits(x.l, x.r), EvenBits(x.l, x.r))
  {
    hide PermOp, PermOpSwapped, OddBits, EvenBits, Moved1, Moved2, Moved3, Moved4, Moved5;
    Move1(x.l, x.r);
    Move2(x.l, x.r);
    Move3(x.l, x.r);
    Move4(x.l, x.r);
    Move5(x.l, x.r);
    LeftBits(x.l, x.r);
    RightBits(x.l, x.r);
  }

  // ---------- what selects in the boxes ----------

  /** Six bits of a word, the first one lowest. */
  function Bits(w: word32, a: word32, b: word32, c: word32, d: word32, e: word32, f: word32): bv6
    requires a < 32 && b < 32 && c < 32 && d < 32 && e < 32 && f < 32
  {
    ((w >> a) & 1) as bv6 | (((w >> b) & 1) as bv6 << 1) | (((w >> c) & 1) as bv6 << 2) |
    (((w >> d) & 1) as bv6 << 3) | (((w >> e) & 1) as bv6 << 4) | (((w >> f) & 1) as bv6 << 5)
  }

  /** The bits of r and of a subkey word k in six places, combined. */
  function Selected(r: word32, k: word32, a: word32, b: word32, c: word32, d: word32, e: word32, f: word32): bv6
    requires a < 32 && b < 32 && c < 32 && d < 32 && e < 32 && f < 32
  {
    Bits(r, a, b, c, d, e, f) ^ Bits(k, a, b, c, d, e, f)
  }

  lemma Box0(r: word32, k: word32)
    ensures Six(Xor(r, k) >> 0) == Selected(r, k, 0, 1, 2, 3, 4, 5)
  {
  }

  lemma Box1(r: word32, k: word32)
    ensures Six(Turned4(Xor(r, k)) >> 0) == Selected(r, k, 4, 5, 6, 7, 8, 9)
  {
  }

  lemma Box2(r: word32, k: word32)
    ensures Six(Xor(r, k) >> 8) == Selected(r, k, 8, 9, 10, 11, 12, 13)
  {
  }

  lemma Box3(r: word32, k: word32)
    ensures Six(Turned4(Xor(r, k)) >> 8) == Selected(r, k, 12, 13, 14, 15, 16, 17)
  {
  }

  lemma Box4(r: word32, k: word32)
    ensures Six(Xor(r, k) >> 16) == Selected(r, k, 16, 17, 18, 19, 20, 21)
  {
  }

  lemma Box5(r: word32, k: word32)
    ensures Six(Turned4(Xor(r, k)) >> 16) == Selected(r, k, 20, 21, 22, 23, 24, 25)
  {
  }

  lemma Box6(r: word32, k: word32)
    ensures Six(Xor(r, k) >> 24) == Selected(r, k, 24, 25, 26, 27, 28, 29)
  {
  }

  lemma Box7(r: word32, k: word32)
    ensures Six(Turned4(Xor(r, k)) >> 24) == Selected(r, k, 28, 29, 30, 31, 0, 1)
  {
  }

  function Entry(ks: DesContext, box: nat, i: bv6): word32
    requires box < 8
  {
    ks.spTrans[box][i as nat]
  }

  /**
   The function of a round.  Box k gets the bits from 4 * k on, the last two of which the next box
   gets as well, as in the expansion of the standard, combined with the same bits of a word of the
   schedule, the first word for the even boxes and the second for the odd ones.
   */
  function RoundFunction(ks: DesContext, r: word32, k0: word32, k1: word32): word32 {
    Combined(
      Entry(ks, 0, Selected(r, k0, 0, 1, 2, 3, 4, 5)),
      Entry(ks, 1, Selected(r, k1, 4, 5, 6, 7, 8, 9)),
      Entry(ks, 2, Selected(r, k0, 8, 9, 10, 11, 12, 13)),
      Entry(ks, 3, Selected(r, k1, 12, 13, 14, 15, 16, 17)),
      Entry(ks, 4, Selected(r, k0, 16, 17, 18, 19, 20, 21)),
      Entry(ks, 5, Selected(r, k1, 20, 21, 22, 23, 24, 25)),
      Entry(ks, 6, Selected(r, k0, 24, 25, 26, 27, 28, 29)),
      Entry(ks, 7, Selected(r, k1, 28, 29, 30, 31, 0, 1)))
  }

  lemma SubstituteIs(ks: DesContext, box: nat, a: word32, n: word32, i: bv6)
    requires box < 8 && n <= 32 && Six(a >> n) == i
    ensures Substitute(ks, box, a, n) == Entry(ks, box, i)
  {
    hide Six;
  }

  lemma Reordered(a: word32, b: word32, c: word32, d: word32, e: word32, f: word32, g: word32, h: word32)
    ensures Combined(b, d, f, h, a, c, e, g) == Combined(a, b, c, d, e, f, g, h)
  {
  }

  lemma BoxEntry0(ks: DesContext, r: word32, k: word32)
    ensures Substitute(ks, 0, Xor(r, k), 0) == Entry(ks, 0, Selected(r, k, 0, 1, 2, 3, 4, 5))
  {
    hide Six, Selected, Turned4, Xor, Substitute, Entry;
    Box0(r, k);
    SubstituteIs(ks, 0, Xor(r, k), 0, Selected(r, k, 0, 1, 2, 3, 4, 5));
  }

  lemma BoxEntry1(ks: DesContext, r: word32, k: word32)
    ensures Substitute(ks, 1, Turned4(Xor(r, k)), 0) == Entry(ks, 1, Selected(r, k, 4, 5, 6, 7, 8, 9))
  {
    hide Six, Selected, Turned4, Xor, Substitute, Entry;
    Box1(r, k);
    SubstituteIs(ks, 1, Turned4(Xor(r, k)), 0, Selected(r, k, 4, 5, 6, 7, 8, 9));
  }

  lemma BoxEntry2(ks: DesContext, r: word32, k: word32)
    ensures Substitute(ks, 2, Xor(r, k), 8) == Entry(ks, 2, Selected(r, k, 8, 9, 10, 11, 12, 13))
  {
    hide Six, Selected, Turned4, Xor, Substitute, Entry;
    Box2(r, k);
    SubstituteIs(ks, 2, Xor(r, k), 8, Selected(r, k, 8, 9, 10, 11, 12, 13));
  }

  lemma BoxEntry3(ks: DesContext, r: word32, k: word32)
    ensures Substitute(ks, 3, Turned4(Xor(r, k)), 8) == Entry(ks, 3, Selected(r, k, 12, 13, 14, 15, 16, 17))
  {
    hide Six, Selected, Turned4, Xor, Substitute, Entry;
    Box3(r, k);
    SubstituteIs(ks, 3, Turned4(Xor(r, k)), 8, Selected(r, k, 12, 13, 14, 15, 16, 17));
  }

  lemma BoxEntry4(ks: DesContext, r: word32, k: word32)
    ensures Substitute(ks, 4, Xor(r, k), 16) == Entry(ks, 4, Selected(r, k, 16, 17, 18, 19, 20, 21))
  {
    hide Six, Selected, Turned4, Xor, Substitute, Entry;
    Box4(r, k);
    SubstituteIs(ks, 4, Xor(r, k), 16, Selected(r, k, 16, 17, 18, 19, 20, 21));
  }

  lemma BoxEntry5(ks: DesContext, r: word32, k: word32)
    ensures Substitute(ks, 5, Turned4(Xor(r, k)), 16) == Entry(ks, 5, Selected(r, k, 20, 21, 22, 23, 24, 25))
  {
    hide Six, Selected, Turned4, Xor, Substitute, Entry;
    Box5(r, k);
    SubstituteIs(ks, 5, Turned4(Xor(r, k)), 16, Selected(r, k, 20, 21, 22, 23, 24, 25));
  }

  lemma BoxEntry6(ks: DesContext, r: word32, k: word32)
    ensures Substitute(ks, 6, Xor(r, k), 24) == Entry(ks, 6, Selected(r, k, 24, 25, 26, 27, 28, 29))
  {
    hide Six, Selected, Turned4, Xor, Substitute, Entry;
    Box6(r, k);
    SubstituteIs(ks, 6, Xor(r, k), 24, Selected(r, k, 24, 25, 26, 27, 28, 29));
  }

  lemma BoxEntry7(ks: DesContext, r: word32, k: word32)
    ensures Substitute(ks, 7, Turned4(Xor(r, k)), 24) == Entry(ks, 7, Selected(r, k, 28, 29, 30, 31, 0, 1))
  {
    hide Six, Selected, Turned4, Xor, Substitute, Entry;
    Box7(r, k);
    SubstituteIs(ks, 7, Turned4(Xor(r, k)), 24, Selected(r, k, 28, 29, 30, 31, 0, 1));
  }

  lemma MixIsRoundFunction(ks: DesContext, r: word32, s: nat)
    requires s + 1 < 32
    ensures Mix(ks, r, s) == RoundFunction(ks, r, ks.keySchedule[s], ks.keySchedule[s + 1])
  {
    hide Selected, Entry, Substitute, Combined, Turned4, Xor;
    var k0, k1 := ks.keySchedule[s], ks.keySchedule[s + 1];
    BoxEntry0(ks, r, k0);
    BoxEntry1(ks, r, k1);
    BoxEntry2(ks, r, k0);
    BoxEntry3(ks, r, k1);
    BoxEntry4(ks, r, k0);
    BoxEntry5(ks, r, k1);
    BoxEntry6(ks, r, k0);
    BoxEntry7(ks, r, k1);
    Reordered(Entry(ks, 0, Selected(r, k0, 0, 1, 2, 3, 4, 5)),
              Entry(ks, 1, Selected(r, k1, 4, 5, 6, 7, 8, 9)),
              Entry(ks, 2, Selected(r, k0, 8, 9, 10, 11, 12, 13)),
              Entry(ks, 3, Selected(r, k1, 12, 13, 14, 15, 16, 17)),
              Entry(ks, 4, Selected(r, k0, 16, 17, 18, 19, 20, 21)),
              Entry(ks, 5, Selected(r, k1, 20, 21, 22, 23, 24, 25)),
              Entry(ks, 6, Selected(r, k0, 24, 25, 26, 27, 28, 29)),
              Entry(ks, 7, Selected(r, k1, 28, 29, 30, 31, 0, 1)));
  }

  // ---------- the rounds ----------

  /** The halves one after the other: each is the one before the last, combined with the function of the last. */
  function Half(ks: DesContext, x: Block, m: nat): word32
    requires m <= 17
  {
    if m == 0 then x.l
    else if m == 1 then x.r
    else Xor(Half(ks, x, m - 2),
             RoundFunction(ks, Half(ks, x, m - 1), ks.keySchedule[2 * m - 4], ks.keySchedule[2 * m - 3]))
  }

  lemma {:induction false} ForwardHalves(ks: DesContext, x: Block, n: nat)
    requires n <= 8
    ensures Forward(ks, x, n) == Block(Half(ks, x, 2 * n), Half(ks, x, 2 * n + 1))
  {
    hide Mix, RoundFunction, Xor;
    if n > 0 {
      ForwardHalves(ks, x, n - 1);
      MixIsRoundFunction(ks, Half(ks, x, 2 * n - 1), 4 * n - 4);
      MixIsRoundFunction(ks, Half(ks, x, 2 * n), 4 * n - 2);
    }
  }

  lemma EnterIs(x: Block)
    ensures Enter(x) == Block((EvenBits(x.l, x.r) << 1) | (EvenBits(x.l, x.r) >> 31),
                              (OddBits(x.l, x.r) << 1) | (OddBits(x.l, x.r) >> 31))
  {
    InitialPermutation(x);
    hide IP, EvenBits, OddBits;
  }

  /**
   des_encrypt is the sixteen rounds of the standard: the even bits of the block, turned by one, are the
   half before the first round and the odd ones the half it works on, and the last two halves are the
   turned bits of the result, exchanged.
   */
  lemma SixteenRounds(ks: DesContext, x: Block)
    ensures var y := Transform(ks, x, true);
            var start := Block((EvenBits(x.l, x.r) << 1) | (EvenBits(x.l, x.r) >> 31),
                               (OddBits(x.l, x.r) << 1) | (OddBits(x.l, x.r) >> 31));
            && (EvenBits(y.l, y.r) << 1) | (EvenBits(y.l, y.r) >> 31) == Half(ks, start, 17)
            && (OddBits(y.l, y.r) << 1) | (OddBits(y.l, y.r) >> 31) == Half(ks, start, 16)
  {
    hide Enter, Leave, Forward, EvenBits, OddBits, Half;
    var y := Transform(ks, x, true);
    EnterIs(x);
    EnterIs(y);
    ForwardHalves(ks, Enter(x), 8);
    LeaveEnter(Forward(ks, Enter(x), 8));
  }

  // ---------- the subkeys ----------

  /** How far the halves of the key have been turned after i rounds: the sums of the standard's shifts. */
  const DISTANCES: seq<nat> := [0, 1, 2, 4, 6, 8, 10, 12, 14, 15, 17, 19, 21, 23, 25, 27, 28]

  lemma DistanceStep(i: nat)
    requires i < 16
    ensures DISTANCES[i + 1] == DISTANCES[i] + if DesKeys.Twice(i) then 2 else 1
  {
  }

  lemma {:induction false} DistanceIs(i: nat)
    requires i <= 16
    ensures DesKeys.Distance(i) == DISTANCES[i]
  {
    if i > 0 {
      DistanceStep(i - 1);
      DistanceIs(i - 1);
    }
    hide DesKeys.Twice;
  }

  /** One place down in a word of 28 bits, the lowest bit to the top, n times. */
  function Down(x: word32, n: nat): word32 {
    if n == 0 then x else var y := Down(x, n - 1); (y >> 1) | ((y & 1) << 27)
  }

  lemma OneDown(x: word32)
    requires DesKeys.Short(x)
    ensures DesKeys.Turned1(x) == (x >> 1) | ((x & 1) << 27)
  {
  }

  lemma {:induction false} TurnsAreDown(x: word32, n: nat)
    requires DesKeys.Short(x)
    ensures DesKeys.Turns(x, n) == Down(x, n)
  {
    if n > 0 {
      TurnsAreDown(x, n - 1);
      DesKeys.TurnsStay(x, n - 1);
      OneDown(Down(x, n - 1));
    }
    hide DesKeys.Turned1, DesKeys.Short;
  }

  /** The halves in a round are the first ones, turned as far as the table says. */
  lemma HalvesTurn(key: seq<byte>, i: nat)
    requires |key| >= 8 && i <= 16
    ensures DesKeys.HalvesAt(DesKeys.Start(key), i) ==
            Block(Down(DesKeys.Start(key).l, DISTANCES[i]), Down(DesKeys.Start(key).r, DISTANCES[i]))
  {
    hide DesKeys.Halves, GetLsb, DesKeys.HalvesAt, DesKeys.Turns, DesKeys.Short, Down;
    DesKeys.HalvesAreShort(GetLsb(key[..4]), GetLsb(key[4..8]));
    var start := DesKeys.Start(key);
    DesKeys.HalvesAreTurned(start, i);
    DistanceIs(i);
    TurnsAreDown(start.l, DISTANCES[i]);
    TurnsAreDown(start.r, DISTANCES[i]);
  }

  lemma SelectedC(c: word32)
    ensures Six(c) == Bits(c, 0, 1, 2, 3, 4, 5)
    ensures Six(((c >> 6) & 0x03) | ((c >> 7) & 0x3c)) == Bits(c, 6, 7, 9, 10, 11, 12)
    ensures Six(((c >> 13) & 0x0f) | ((c >> 14) & 0x30)) == Bits(c, 13, 14, 15, 16, 18, 19)
    ensures Six(((c >> 20) & 0x01) | ((c >> 21) & 0x06) | ((c >> 22) & 0x38)) == Bits(c, 20, 22, 23, 25, 26, 27)
  {
  }

  lemma SelectedD(d: word32)
    ensures Six(d) == Bits(d, 0, 1, 2, 3, 4, 5)
    ensures Six(((d >> 7) & 0x03) | ((d >> 8) & 0x3c)) == Bits(d, 7, 8, 10, 11, 12, 13)
    ensures Six(d >> 15) == Bits(d, 15, 16, 17, 18, 19, 20)
    ensures Six(((d >> 21) & 0x0f) | ((d >> 22) & 0x30)) == Bits(d, 21, 22, 23, 24, 26, 27)
  {
  }

  /** The bits of the halves that select in the tables: all but four of each, as in the standard. */
  lemma SubkeyBits(sel: DesKeys.SixBitTables, c: word32, d: word32)
    ensures DesKeys.FromC(sel, c) ==
            sel[0][Bits(c, 0, 1, 2, 3, 4, 5) as nat] | sel[1][Bits(c, 6, 7, 9, 10, 11, 12) as nat] |
            sel[2][Bits(c, 13, 14, 15, 16, 18, 19) as nat] | sel[3][Bits(c, 20, 22, 23, 25, 26, 27) as nat]
    ensures DesKeys.FromD(sel, d) ==
            sel[4][Bits(d, 0, 1, 2, 3, 4, 5) as nat] | sel[5][Bits(d, 7, 8, 10, 11, 12, 13) as nat] |
            sel[6][Bits(d, 15, 16, 17, 18, 19, 20) as nat] | sel[7][Bits(d, 21, 22, 23, 24, 26, 27) as nat]
  {
    SelectedC(c);
    SelectedD(d);
    hide Six, Bits;
  }

  lemma EvenBoxKeys(s: word32, t: word32)
    ensures Bits(DesKeys.Even(s, t), 0, 1, 2, 3, 4, 5) == Bits(s, 0, 1, 2, 3, 4, 5)
    ensures Bits(DesKeys.Even(s, t), 8, 9, 10, 11, 12, 13) == Bits(s, 8, 9, 10, 11, 12, 13)
    ensures Bits(DesKeys.Even(s, t), 16, 17, 18, 19, 20, 21) == Bits(t, 0, 1, 2, 3, 4, 5)
    ensures Bits(DesKeys.Even(s, t), 24, 25, 26, 27, 28, 29) == Bits(t, 8, 9, 10, 11, 12, 13)
  {
  }

  lemma OddBoxKeys(s: word32, t: word32)
    ensures Bits(DesKeys.Odd(s, t), 4, 5, 6, 7, 8, 9) == Bits(s, 16, 17, 18, 19, 20, 21)
    ensures Bits(DesKeys.Odd(s, t), 12, 13, 14, 15, 16, 17) == Bits(s, 24, 25, 26, 27, 28, 29)
    ensures Bits(DesKeys.Odd(s, t), 20, 21, 22, 23, 24, 25) == Bits(t, 16, 17, 18, 19, 20, 21)
    ensures Bits(DesKeys.Odd(s, t), 28, 29, 30, 31, 0, 1) == Bits(t, 24, 25, 26, 27, 28, 29)
  {
  }

  /**
   What a round's key gives the boxes: with s and t made of the halves after the turn, the boxes
   0, 2, 1, 3 get the octets of s, the lowest first, and 4, 6, 5, 7 those of t.
   */
  lemma BoxKeys(sel: DesKeys.SixBitTables, start: Block, i: nat)
    requires i < 16
    ensures var h := DesKeys.HalvesAt(start, i + 1);
            var s, t := DesKeys.FromC(sel, h.l), DesKeys.FromD(sel, h.r);
            var k0, k1 := DesKeys.ScheduleWord(sel, start, 2 * i), DesKeys.ScheduleWord(sel, start, 2 * i + 1);
            && Bits(k0, 0, 1, 2, 3, 4, 5) == Bits(s, 0, 1, 2, 3, 4, 5)
            && Bits(k0, 8, 9, 10, 11, 12, 13) == Bits(s, 8, 9, 10, 11, 12, 13)
            && Bits(k1, 4, 5, 6, 7, 8, 9) == Bits(s, 16, 17, 18, 19, 20, 21)
            && Bits(k1, 12, 13, 14, 15, 16, 17) == Bits(s, 24, 25, 26, 27, 28, 29)
            && Bits(k0, 16, 17, 18, 19, 20, 21) == Bits(t, 0, 1, 2, 3, 4, 5)
            && Bits(k0, 24, 25, 26, 27, 28, 29) == Bits(t, 8, 9, 10, 11, 12, 13)
            && Bits(k1, 20, 21, 22, 23, 24, 25) == Bits(t, 16, 17, 18, 19, 20, 21)
            && Bits(k1, 28, 29, 30, 31, 0, 1) == Bits(t, 24, 25, 26, 27, 28, 29)
  {
    hide Bits, DesKeys.Even, DesKeys.Odd, DesKeys.FromC, DesKeys.FromD, DesKeys.HalvesAt, DesKeys.ScheduleWord;
    DesKeys.ScheduleWords(sel, start, i);
    var h := DesKeys.HalvesAt(start, i + 1);
    EvenBoxKeys(DesKeys.FromC(sel, h.l), DesKeys.FromD(sel, h.r));
    OddBoxKeys(DesKeys.FromC(sel, h.l), DesKeys.FromD(sel, h.r));
  }
}
