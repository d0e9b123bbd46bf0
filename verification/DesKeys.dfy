/**
 The DES key schedule (des.c:452-511), for any selection tables.  Its first permutation is the one
 of the standard, column by column of the key's bits, so that the parity bits and no others are
 left out; and the sixteen turns bring both halves back to where they started.
 */
module DesKeys {
  import opened Bytes
  import opened MachineWords
  import Des

  /** Tables for six bits each, such as des_skb: which bits of the halves make a subkey. */
  type SixBitTables = t: seq<seq<word32>> | |t| == 8 && forall i :: 0 <= i < 8 ==> |t[i]| == 64
    witness seq(8, _ => seq(64, _ => 0))

  // ---------- the first permutation ----------

  /** The halves c and d of 28 bits: PERM_OP and HPERM_OP written out. */
  function Halves(c: word32, d: word32): Block {
    var t := ((d >> 4) ^ c) & 0x0f0f0f0f; var c := c ^ t; var d := d ^ (t << 4);
    var t := ((c << 18) ^ c) & 0xcccc0000; var c := c ^ t ^ (t >> 18);
    var t := ((d << 18) ^ d) & 0xcccc0000; var d := d ^ t ^ (t >> 18);
    var t := ((d >> 1) ^ c) & 0x55555555; var c := c ^ t; var d := d ^ (t << 1);
    var t := ((c >> 8) ^ d) & 0x00ff00ff; var d := d ^ t; var c := c ^ (t << 8);
    var t := ((d >> 1) ^ c) & 0x55555555; var c := c ^ t; var d := d ^ (t << 1);
    var d := ((d & 0xff) << 16) | (d & 0xff00) | ((d >> 16) & 0xff) | ((c >> 4) & 0xf000000);
    Block(c & 0x0fffffff, d)
  }

  /** Bit s, counted from the lowest, of the eight octets of the key, the last octet first. */
  function Column(l: word32, r: word32, s: word32): word32
    requires s < 8
  {
    ((r >> (24 + s)) & 1) | (((r >> (16 + s)) & 1) << 1) | (((r >> (8 + s)) & 1) << 2) | (((r >> s) & 1) << 3) |
    (((l >> (24 + s)) & 1) << 4) | (((l >> (16 + s)) & 1) << 5) | (((l >> (8 + s)) & 1) << 6) | (((l >> s) & 1) << 7)
  }

  /** Permuted choice 1 of the standard takes the columns 1, 2, 3 and half of 4, and 7, 6, 5 and half of 4. */
  lemma HalvesAreColumns(l: word32, r: word32)
    ensures Halves(l, r).l ==
            Column(l, r, 7) | (Column(l, r, 6) << 8) | (Column(l, r, 5) << 16) | ((Column(l, r, 4) & 0x0f) << 24)
    ensures Halves(l, r).r ==
            Column(l, r, 1) | (Column(l, r, 2) << 8) | (Column(l, r, 3) << 16) | ((Column(l, r, 4) >> 4) << 24)
  {
    LeftColumns(l, r);
    RightColumns(l, r);
    hide Halves, Column;
  }

  lemma LeftColumns(l: word32, r: word32)
    ensures Halves(l, r).l ==
            Column(l, r, 7) | (Column(l, r, 6) << 8) | (Column(l, r, 5) << 16) | ((Column(l, r, 4) & 0x0f) << 24)
  {
  }

  lemma RightColumns(l: word32, r: word32)
    ensures Halves(l, r).r ==
            Column(l, r, 1) | (Column(l, r, 2) << 8) | (Column(l, r, 3) << 16) | ((Column(l, r, 4) >> 4) << 24)
  {
  }

  function Start(key: seq<byte>): Block
    requires |key| >= 8
  {
    Halves(GetLsb(key[..4]), GetLsb(key[4..8]))
  }

  /** An octet without its parity bit, the lowest. */
  function NoParity(a: byte): byte { a & 0xfe }

  function NoParityWord(w: word32): word32 { w & 0xfefefefe }

  lemma ParityIsDropped(c: word32, d: word32)
    ensures Halves(c, d) == Halves(NoParityWord(c), NoParityWord(d))
  {
  }

  lemma OthersAreKept(c: word32, d: word32, c': word32, d': word32)
    requires Halves(c, d) == Halves(c', d')
    ensures NoParityWord(c) == NoParityWord(c') && NoParityWord(d) == NoParityWord(d')
  {
  }

  lemma CutNoParity(w: word32)
    ensures Cut(NoParityWord(w), 24) == NoParity(Cut(w, 24)) && Cut(NoParityWord(w), 16) == NoParity(Cut(w, 16))
    ensures Cut(NoParityWord(w), 8) == NoParity(Cut(w, 8)) && Cut(NoParityWord(w), 0) == NoParity(Cut(w, 0))
  {
  }

  lemma JoinNoParity(a: byte, b: byte, c: byte, d: byte)
    ensures NoParityWord(Join(a, b, c, d)) == Join(NoParity(a), NoParity(b), NoParity(c), NoParity(d))
  {
    var w := Join(a, b, c, d);
    CutJoin(a, b, c, d);
    CutNoParity(w);
    JoinCut(NoParityWord(w));
    hide Join, Cut, NoParity, NoParityWord;
  }

  lemma WordParity(s: seq<byte>, t: seq<byte>)
    requires |s| == |t| == 4
    ensures NoParityWord(GetLsb(s)) == NoParityWord(GetLsb(t)) <==>
            forall i :: 0 <= i < 4 ==> NoParity(s[i]) == NoParity(t[i])
  {
    JoinNoParity(s[3], s[2], s[1], s[0]);
    JoinNoParity(t[3], t[2], t[1], t[0]);
    CutJoin(NoParity(s[3]), NoParity(s[2]), NoParity(s[1]), NoParity(s[0]));
    CutJoin(NoParity(t[3]), NoParity(t[2]), NoParity(t[1]), NoParity(t[0]));
    hide Join, Cut, NoParity, NoParityWord;
  }

  /** Two keys start with the same halves exactly when they differ in nothing but parity. */
  lemma ParityIgnored(key: seq<byte>, key': seq<byte>)
    requires |key| == |key'| == 8
    ensures Start(key) == Start(key') <==> forall i :: 0 <= i < 8 ==> NoParity(key[i]) == NoParity(key'[i])
  {
    var c, d, c', d' := GetLsb(key[..4]), GetLsb(key[4..8]), GetLsb(key'[..4]), GetLsb(key'[4..8]);
    WordParity(key[..4], key'[..4]);
    WordParity(key[4..8], key'[4..8]);
    ParityIsDropped(c, d);
    ParityIsDropped(c', d');
    hide Halves, GetLsb, NoParity, NoParityWord;
    if Start(key) == Start(key') {
      OthersAreKept(c, d, c', d');
    }
    assert forall i :: 0 <= i < 4 ==> key[i] == key[..4][i] && key'[i] == key'[..4][i];
    assert forall i :: 0 <= i < 4 ==> key[4 + i] == key[4..8][i] && key'[4 + i] == key'[4..8][i];
    assert forall i :: 4 <= i < 8 ==> key[i] == key[4..8][i - 4] && key'[i] == key'[4..8][i - 4];
  }

  // ---------- the turns ----------

  function Turned1(x: word32): word32 { ((x >> 1) | (x << 27)) & 0x0fffffff }

  function Turned2(x: word32): word32 { ((x >> 2) | (x << 26)) & 0x0fffffff }

  /** A word of 28 bits. */
  predicate Short(x: word32) { x & 0x0fffffff == x }

  const SHIFTS: bv16 := 0x7efc

  /** shifts & 1 in turn i. */
  predicate Twice(i: nat)
    requires i < 16
  {
    (SHIFTS >> i) & 1 == 1
  }

  function Turn(h: Block, twice: bool): Block {
    if twice then Block(Turned2(h.l), Turned2(h.r)) else Block(Turned1(h.l), Turned1(h.r))
  }

  /** The halves after i turns. */
  function HalvesAt(start: Block, i: nat): Block
    requires i <= 16
  {
    if i == 0 then start else Turn(HalvesAt(start, i - 1), Twice(i - 1))
  }

  /** One turn by one, n times. */
  function Turns(x: word32, n: nat): word32 { if n == 0 then x else Turned1(Turns(x, n - 1)) }

  /** How far the halves have been turned after i turns. */
  function Distance(i: nat): nat
    requires i <= 16
  {
    if i == 0 then 0 else Distance(i - 1) + if Twice(i - 1) then 2 else 1
  }

  lemma TurnedTwice(x: word32)
    ensures Short(x) ==> Turned2(x) == Turned1(Turned1(x))
    ensures Short(Turned1(x))
  {
  }

  lemma {:induction false} TurnsStay(x: word32, n: nat)
    requires Short(x)
    ensures Short(Turns(x, n))
  {
    if n == 0 {
      assert Turns(x, 0) == x;
    } else {
      TurnedTwice(Turns(x, n - 1));
    }
    hide Turned1, Short;
  }

  lemma {:induction false} HalvesAreTurned(start: Block, i: nat)
    requires i <= 16 && Short(start.l) && Short(start.r)
    ensures HalvesAt(start, i) == Block(Turns(start.l, Distance(i)), Turns(start.r, Distance(i)))
  {
    hide Turned1, Turned2, Twice, Short;
    if i > 0 {
      HalvesAreTurned(start, i - 1);
      var n := Distance(i - 1);
      TurnsStay(start.l, n);
      TurnsStay(start.r, n);
      TurnedTwice(Turns(start.l, n));
      TurnedTwice(Turns(start.r, n));
    }
  }

  lemma TotalDistance()
    ensures Distance(16) == 28
  {
    assert Distance(1) == 1 && Distance(2) == 2;
    assert Distance(5) == 8;
    assert Distance(8) == 14;
    assert Distance(9) == 15;
    assert Distance(12) == 21;
    assert Distance(15) == 27;
  }

  lemma {:induction false} TurnsOn(x: word32, m: nat, n: nat)
    ensures Turns(x, m + n) == Turns(Turns(x, m), n)
  {
    if n > 0 { TurnsOn(x, m, n - 1); }
  }

  function Turned4(x: word32): word32 { ((x >> 4) | (x << 24)) & 0x0fffffff }

  lemma FourTurns(x: word32)
    requires Short(x)
    ensures Turned1(Turned1(Turned1(Turned1(x)))) == Turned4(x)
  {
  }

  lemma SevenTimesFour(x: word32)
    requires Short(x)
    ensures Turned4(Turned4(Turned4(Turned4(Turned4(Turned4(Turned4(x))))))) == x
  {
  }

  lemma FourMore(x: word32, n: nat)
    requires Short(x)
    ensures Turns(x, n + 4) == Turned4(Turns(x, n))
  {
    var y := Turns(x, n);
    TurnsStay(x, n);
    FourTurns(y);
    hide Turned1, Turned4, Short;
    assert Turns(x, n + 2) == Turned1(Turns(x, n + 1));
    assert Turns(x, n + 4) == Turned1(Turns(x, n + 3));
  }

  lemma TurnedAround(x: word32)
    requires Short(x)
    ensures Turns(x, 28) == x
  {
    FourMore(x, 0);
    FourMore(x, 4);
    FourMore(x, 8);
    FourMore(x, 12);
    FourMore(x, 16);
    FourMore(x, 20);
    FourMore(x, 24);
    SevenTimesFour(x);
    hide Turned1, Turned4;
    assert Turns(x, 0) == x;
  }

  lemma HalvesAreShort(c: word32, d: word32)
    ensures Short(Halves(c, d).l) && Short(Halves(c, d).r)
  {
  }

  lemma HalvesTurnAround(start: Block)
    requires Short(start.l) && Short(start.r)
    ensures HalvesAt(start, 16) == start
  {
    hide *;
    HalvesAreTurned(start, 16);
    TotalDistance();
    TurnedAround(start.l);
    TurnedAround(start.r);
  }

  /** Sixteen turns, by one or by two, bring the halves back to where they started. */
  lemma FullCircle(key: seq<byte>)
    requires |key| >= 8
    ensures HalvesAt(Start(key), 16) == Start(key)
  {
    hide Halves, GetLsb, HalvesAt, Short;
    HalvesAreShort(GetLsb(key[..4]), GetLsb(key[4..8]));
    HalvesTurnAround(Start(key));
  }

  // ---------- the schedule ----------

  /** What the tables make of c. */
  function FromC(sel: SixBitTables, c: word32): word32 {
    sel[0][Des.Six(c) as nat] |
    sel[1][Des.Six(((c >> 6) & 0x03) | ((c >> 7) & 0x3c)) as nat] |
    sel[2][Des.Six(((c >> 13) & 0x0f) | ((c >> 14) & 0x30)) as nat] |
    sel[3][Des.Six(((c >> 20) & 0x01) | ((c >> 21) & 0x06) | ((c >> 22) & 0x38)) as nat]
  }

  /** What the tables make of d. */
  function FromD(sel: SixBitTables, d: word32): word32 {
    sel[4][Des.Six(d) as nat] |
    sel[5][Des.Six(((d >> 7) & 0x03) | ((d >> 8) & 0x3c)) as nat] |
    sel[6][Des.Six(d >> 15) as nat] |
    sel[7][Des.Six(((d >> 21) & 0x0f) | ((d >> 22) & 0x30)) as nat]
  }

  function Even(s: word32, t: word32): word32 { (t << 16) | (s & 0xffff) }

  function Odd(s: word32, t: word32): word32 {
    var u := (s >> 16) | (t & 0xffff0000);
    (u << 4) | (u >> 28)
  }

  /** Word i of the schedule. */
  function ScheduleWord(sel: SixBitTables, start: Block, i: nat): word32
    requires i < 32
  {
    var h := HalvesAt(start, i / 2 + 1);
    var s, t := FromC(sel, h.l), FromD(sel, h.r);
    if i % 2 == 0 then Even(s, t) else Odd(s, t)
  }

  function Schedule(sel: SixBitTables, key: seq<byte>): (ks: seq<word32>)
    requires |key| >= 8
    ensures |ks| == 32
  {
    seq(32, i requires 0 <= i < 32 => ScheduleWord(sel, Start(key), i))
  }

  /** Keys that differ in parity only have the same schedule. */
  lemma SameSchedule(sel: SixBitTables, key: seq<byte>, key': seq<byte>)
    requires |key| == |key'| == 8 && forall i :: 0 <= i < 8 ==> NoParity(key[i]) == NoParity(key'[i])
    ensures Schedule(sel, key) == Schedule(sel, key')
  {
    ParityIgnored(key, key');
    hide Start, ScheduleWord, NoParity;
  }

  /** des_set_key. */
  method SetKey(key: seq<byte>, sel: SixBitTables, schedule: array<word32>)
    requires |key| >= 8 && schedule.Length == 32
    modifies schedule
    ensures schedule[..] == Schedule(sel, key)
  {
    hide Halves, FromC, FromD, Even, Odd, Turned1, Turned2, GetLsb, Twice;
    var h := Halves(GetLsb(key[..4]), GetLsb(key[4..8]));
    var i := 0;
    while i < 16
      invariant i <= 16 && h == HalvesAt(Start(key), i)
      invariant forall j :: 0 <= j < 2 * i ==> schedule[j] == ScheduleWord(sel, Start(key), j)
    {
      h := if Twice(i) then Block(Turned2(h.l), Turned2(h.r)) else Block(Turned1(h.l), Turned1(h.r));
      var s, t := FromC(sel, h.l), FromD(sel, h.r);
      ScheduleWords(sel, Start(key), i);
      schedule[2 * i] := Even(s, t);
      schedule[2 * i + 1] := Odd(s, t);
      i := i + 1;
    }
  }

  lemma ScheduleWords(sel: SixBitTables, start: Block, i: nat)
    requires i < 16
    ensures var h := HalvesAt(start, i + 1);
            var s, t := FromC(sel, h.l), FromD(sel, h.r);
            ScheduleWord(sel, start, 2 * i) == Even(s, t) && ScheduleWord(sel, start, 2 * i + 1) == Odd(s, t)
  {
    hide FromC, FromD, Even, Odd, HalvesAt;
    assert 2 * i / 2 == i && (2 * i + 1) / 2 == i;
  }
}
