/**
 What the checksum of a packet detects: alterations within four consecutive octets of the octets
 and their checksum.  A CRC detects them all when its own octets follow in the order of the shift
 register.  crc32 shifts the lowest bit out first, but packet.c stores the result highest octet
 first, and so one pattern gets through, two octets on either side of the border.
 */
module CrcBursts {
  import opened Bytes
  import opened MachineWords
  import opened Crc32
  import opened BlockCrc

  function Zeros(n: nat): (s: seq<byte>)
    ensures |s| == n
  {
    seq(n, _ => 0)
  }

  // ---------- the table as a sum over the bits of its index ----------

  function Row(a: byte): word32 {
    (if a & 1 != 0 then 0x77073096 else 0) ^ (if a & 2 != 0 then 0xee0e612c else 0) ^
    (if a & 4 != 0 then 0x076dc419 else 0) ^ (if a & 8 != 0 then 0x0edb8832 else 0) ^
    (if a & 16 != 0 then 0x1db71064 else 0) ^ (if a & 32 != 0 then 0x3b6e20c8 else 0) ^
    (if a & 64 != 0 then 0x76dc4190 else 0) ^ (if a & 128 != 0 then 0xedb88320 else 0)
  }

  lemma RowIsShift(a: byte)
    ensures Row(a) == Shift8(Widen(a))
  {
  }

  /** Step with the table written as a sum. */
  function RowStep(c: word32, b: byte): word32 {
    Xor(Row(LowByte(Xor(c, Widen(b)))), Shr8(c))
  }

  lemma StepIsRow(c: word32, b: byte)
    ensures Step(c, b) == RowStep(c, b)
  {
    hide Entry, Row, Shift8, LowByte, Widen, Xor, Shr8;
    var x := LowByte(Xor(c, Widen(b)));
    TableIsShift(x);
    RowIsShift(x);
  }

  /** The step taken back, on the register. */
  function Back(a: byte): word32 {
    (if a & 1 != 0 then 0xdb710641 else 0) ^ (if a & 2 != 0 then 0x6d930ac3 else 0) ^
    (if a & 4 != 0 then 0xdb261586 else 0) ^ (if a & 8 != 0 then 0x6d3d2d4d else 0) ^
    (if a & 16 != 0 then 0xda7a5a9a else 0) ^ (if a & 32 != 0 then 0x6f85b375 else 0) ^
    (if a & 64 != 0 then 0xdf0b66ea else 0) ^ (if a & 128 != 0 then 0x6567cb95 else 0)
  }

  function Shl8(c: word32): word32 { c << 8 }

  function TopByte(c: word32): byte { (c >> 24) as byte }

  function Unstep(c: word32): word32 { Xor(Shl8(c), Back(TopByte(c))) }

  lemma TopStays(c: word32, r: word32)
    requires r < 0x100_0000
    ensures (c ^ r) >> 24 == c >> 24
  {
  }

  lemma TopIsSame(c: word32, r: word32)
    requires r < 0x100_0000
    ensures TopByte(Xor(c, r)) == TopByte(c)
  {
    TopStays(c, r);
  }

  lemma ShiftLeft(c: word32, r: word32)
    ensures Shl8(Xor(c, r)) == Xor(Shl8(c), Shl8(r))
  {
  }

  lemma UnstepSmall(c: word32, r: word32)
    requires r < 0x100_0000
    ensures Unstep(Xor(c, r)) == Xor(Unstep(c), Shl8(r))
  {
    hide Back, Xor, Shl8, TopByte;
    TopIsSame(c, r);
    ShiftLeft(c, r);
    var p := Back(TopByte(c));
    XorFacts(Shl8(c), Shl8(r), p);
    XorFacts(Shl8(c), p, Shl8(r));
    XorFacts(Shl8(r), p, 0);
  }

  lemma RowBack(y: byte)
    ensures Unstep(Row(y)) == Widen(y)
  {
  }

  lemma Upper(c: word32, b: byte)
    ensures Shr8(c) < 0x100_0000 && Top(Xor(c, Widen(b))) == Shl8(Shr8(c))
  {
  }

  lemma UnstepRow(c: word32, b: byte)
    ensures Unstep(RowStep(c, b)) == Xor(c, Widen(b))
  {
    hide Back, Row, LowByte, Widen, Xor, Shr8, Shl8, Top, Unstep;
    var x := Xor(c, Widen(b));
    Upper(c, b);
    RowBack(LowByte(x));
    UnstepSmall(Row(LowByte(x)), Shr8(c));
    WordIsParts(x);
  }

  lemma UnstepStep(c: word32, b: byte)
    ensures Unstep(Step(c, b)) == Xor(c, Widen(b))
  {
    hide Entry, Row, LowByte, Widen, Xor, Shr8, Unstep, Step, RowStep;
    StepIsRow(c, b);
    UnstepRow(c, b);
  }

  // ---------- one to four octets ----------

  lemma OneOctet(a: byte)
    requires Row(a) & 0xff == 0
    ensures a == 0
  {
  }

  lemma TwoOctets(a: byte, b: byte)
    requires Xor(Row(b), Shr8(Row(a))) & 0xffff == 0
    ensures (a == 0 && b == 0) || (a == 0x61 && b == 0x16)
  {
  }

  lemma ThreeBack(y: byte)
    requires Unstep(Unstep(Unstep(Widen(y) << 24))) < 0x100_0000
    ensures y == 0
  {
  }

  lemma ThreeParts(a: byte, b: byte, c: byte)
    ensures Xor(Xor(Widen(a), Shl8(Widen(b))), Shl8(Shl8(Widen(c)))) < 0x100_0000
    ensures Xor(Xor(Widen(a), Shl8(Widen(b))), Shl8(Shl8(Widen(c)))) == 0 ==> a == 0 && b == 0 && c == 0
  {
  }

  lemma SmallParts(b: byte, c: byte)
    ensures Widen(b) < 0x100_0000 && Xor(Widen(b), Shl8(Widen(c))) < 0x100_0000
    ensures Shl8(Xor(Widen(b), Shl8(Widen(c)))) == Xor(Shl8(Widen(b)), Shl8(Shl8(Widen(c))))
  {
  }

  /** Three octets followed by their checksum, of which only the highest octet is not zero. */
  lemma ThreeOctets(a: byte, b: byte, c: byte, y: byte)
    requires Step(Step(Step(0, a), b), c) == Widen(y) << 24
    ensures a == 0 && b == 0 && c == 0 && y == 0
  {
    hide Step, Xor, Unstep, Widen, Shl8;
    var c1 := Step(0, a);
    var c2 := Step(c1, b);
    var c3 := Step(c2, c);
    UnstepStep(c2, c);
    UnstepStep(c1, b);
    UnstepStep(0, a);
    SmallParts(b, c);
    SmallParts(c, 0);
    UnstepSmall(c2, Widen(c));
    var u := Xor(Widen(b), Shl8(Widen(c)));
    XorFacts(c1, Widen(b), Shl8(Widen(c)));
    UnstepSmall(c1, u);
    XorFacts(0, Widen(a), 0);
    XorFacts(Widen(a), 0, 0);
    XorFacts(Widen(a), Shl8(Widen(b)), Shl8(Shl8(Widen(c))));
    ThreeParts(a, b, c);
    ThreeBack(y);
    UnstepZero();
  }

  lemma UnstepZero()
    ensures Widen(0) << 24 == 0 && Unstep(0) == 0
  {
  }

  // ---------- registers that stay nonzero ----------

  lemma StepFromZero(b: byte)
    ensures Step(0, b) == Row(b) && Row(0) == 0
  {
    StepIsRow(0, b);
    FromZero(b);
  }

  lemma FromZero(b: byte)
    ensures RowStep(0, b) == Row(b)
  {
    assert 0 ^ Widen(b) == Widen(b) && LowByte(Widen(b)) == b;
    assert Shr8(0) == 0;
    hide Row, Widen, LowByte;
  }

  lemma StepStaysNonzero(c: word32)
    requires Step(c, 0) == 0
    ensures c == 0
  {
    hide Step, Unstep;
    UnstepStep(c, 0);
    UnstepZero();
  }

  lemma {:induction false} CrcOfZeros(n: nat)
    ensures Crc(0, Zeros(n)) == 0
    decreases n
  {
    if n > 0 {
      StepFromZero(0);
      CrcOfZeros(n - 1);
      assert Zeros(n)[1..] == Zeros(n - 1);
    }
    hide Step, Row;
  }

  lemma {:induction false} CrcStaysNonzero(c: word32, n: nat)
    requires c != 0
    ensures Crc(c, Zeros(n)) != 0
    decreases n
  {
    hide Step;
    if n > 0 {
      if Step(c, 0) == 0 { StepStaysNonzero(c); }
      CrcStaysNonzero(Step(c, 0), n - 1);
      assert Zeros(n)[1..] == Zeros(n - 1);
    }
  }

  // ---------- octets with their checksum ----------

  function HighestFirst(a: byte, b: byte, c: byte, d: byte): word32 {
    (a as word32 << 24) | (b as word32 << 16) | (c as word32 << 8) | (d as word32)
  }

  /** The last four octets are the CRC of those before them, highest octet first. */
  predicate Sealed(s: seq<byte>)
    requires |s| >= 4
  {
    var n := |s|;
    BitwiseCrc(0, s[..n - 4]) == HighestFirst(s[n - 4], s[n - 3], s[n - 2], s[n - 1])
  }

  lemma SealedIs(s: seq<byte>)
    requires |s| >= 4
    ensures Sealed(s) <==> Crc(0, s[..|s| - 4]) == GetMsb(s[|s| - 4..])
  {
    hide BitwiseCrc, Crc;
    TableDrivenIsBitwise(0, s[..|s| - 4]);
    var n := |s| - 4;
    assert HighestFirst(s[n], s[n + 1], s[n + 2], s[n + 3]) == Join(s[n], s[n + 1], s[n + 2], s[n + 3]);
    hide HighestFirst, Join;
  }

  /** A pattern of four octets from place p on, in n octets. */
  function Burst(n: nat, p: nat, w: seq<byte>): (e: seq<byte>)
    requires |w| == 4 && p + 4 <= n
    ensures |e| == n
  {
    Zeros(p) + w + Zeros(n - 4 - p)
  }

  lemma JoinXor(a: byte, b: byte, c: byte, d: byte, a': byte, b': byte, c': byte, d': byte)
    ensures Join(a ^ a', b ^ b', c ^ c', d ^ d') == Xor(Join(a, b, c, d), Join(a', b', c', d'))
  {
  }

  lemma JoinZero(a: byte, b: byte, c: byte, d: byte)
    ensures Join(a, b, c, d) == 0 <==> a == 0 && b == 0 && c == 0 && d == 0
    ensures Join(d, 0, 0, 0) == Widen(d) << 24
    ensures Join(c, d, 0, 0) & 0xffff == 0 && (Join(c, d, 0, 0) == 0xf4ee0000 <==> c == 0xf4 && d == 0xee)
    ensures Join(b, c, d, 0) & 0xff == 0
  {
  }

  /** Whether altered octets still have their checksum depends on the alteration only. */
  lemma SealOfXor(s: seq<byte>, e: seq<byte>)
    requires |s| == |e| >= 4 && Sealed(s)
    ensures Sealed(XorBytes(s, e)) <==> Crc(0, e[..|e| - 4]) == GetMsb(e[|e| - 4..])
  {
    hide BitwiseCrc, Crc, Sealed;
    var n, t := |s| - 4, XorBytes(s, e);
    SealedIs(s);
    SealedIs(t);
    assert t[..n] == XorBytes(s[..n], e[..n]);
    CrcLinear(0, 0, s[..n], e[..n]);
    JoinXor(s[n], s[n + 1], s[n + 2], s[n + 3], e[n], e[n + 1], e[n + 2], e[n + 3]);
    XorFacts(0, 0, 0);
    XorCancels(Crc(0, e[..n]), Crc(0, s[..n]));
    XorCancels(GetMsb(e[n..]), GetMsb(s[n..]));
    XorFacts(Crc(0, s[..n]), Crc(0, e[..n]), 0);
    XorFacts(GetMsb(s[n..]), GetMsb(e[n..]), 0);
    hide Xor, Join;
    assert GetMsb(t[n..]) == Xor(GetMsb(s[n..]), GetMsb(e[n..]));
  }

  // ---------- a burst of four octets ----------

  lemma Shift8Zero(c: word32)
    requires Shift8(c) == 0
    ensures c == 0
  {
  }

  lemma Shift32Zero(v: word32)
    requires Shift32(v) == 0
    ensures v == 0
  {
    hide Shift8;
    Shift8Zero(Shift8(Shift8(Shift8(v))));
    Shift8Zero(Shift8(Shift8(v)));
    Shift8Zero(Shift8(v));
    Shift8Zero(v);
  }

  /** Four octets with CRC zero. */
  lemma FourOctets(w: seq<byte>)
    requires |w| == 4 && Crc(0, w) == 0
    ensures w == [0, 0, 0, 0]
  {
    hide Join, WordBytes, Crc, Shift32, Xor;
    var v := Join(w[3], w[2], w[1], w[0]);
    WordOf(w[0], w[1], w[2], w[3]);
    assert w == WordBytes(v);
    FourBytes(0, v);
    XorFacts(v, 0, 0);
    Shift32Zero(v);
    JoinZero(w[3], w[2], w[1], w[0]);
  }

  lemma WordOf(a: byte, b: byte, c: byte, d: byte)
    ensures WordBytes(Join(d, c, b, a)) == [a, b, c, d]
  {
  }

  /** One octet before the border, three behind. */
  lemma BorderOne(a: byte, b: byte, c: byte, d: byte)
    requires Crc(0, [a]) == Join(b, c, d, 0)
    ensures a == 0 && b == 0 && c == 0 && d == 0
  {
    hide Join, Row, Step;
    assert Crc(0, [a]) == Crc(Step(0, a), []);
    StepFromZero(a);
    JoinZero(0, b, c, d);
    OneOctet(a);
    JoinZero(b, c, d, 0);
  }

  lemma LastOctet(b: byte)
    ensures LowByte(Xor(Row(0x61), Widen(b))) == 0x16 <==> b == 0xd8
    ensures Xor(Row(0x16), Shr8(Row(0x61))) == 0xf4ee0000
    ensures LowByte(Xor(0, Widen(b))) == b && Shr8(0) == 0
  {
  }

  /** Two octets before the border, two behind: one pattern gets through. */
  lemma BorderTwo(a: byte, b: byte, c: byte, d: byte)
    ensures Crc(0, [a, b]) == Join(c, d, 0, 0) <==>
            (a == 0 && b == 0 && c == 0 && d == 0) || (a == 0x61 && b == 0xd8 && c == 0xf4 && d == 0xee)
  {
    hide Join, Row, Step, Xor, Shr8, LowByte, Widen;
    assert [a, b][1..] == [b];
    assert Crc(0, [a, b]) == Crc(Step(0, a), [b]) == Crc(Step(Step(0, a), b), []);
    StepFromZero(a);
    StepFromZero(0);
    StepIsRow(Row(a), b);
    JoinZero(0, 0, c, d);
    JoinZero(c, d, 0, 0);
    LastOctet(b);
    var y := LowByte(Xor(Row(a), Widen(b)));
    XorFacts(0, 0, 0);
    if Crc(0, [a, b]) == Join(c, d, 0, 0) {
      TwoOctets(a, y);
    }
  }

  /** Three octets before the border, one behind. */
  lemma BorderThree(a: byte, b: byte, c: byte, d: byte)
    requires Crc(0, [a, b, c]) == Join(d, 0, 0, 0)
    ensures a == 0 && b == 0 && c == 0 && d == 0
  {
    hide Join, Step;
    assert [a, b, c][1..] == [b, c] && [b, c][1..] == [c];
    assert Crc(0, [a, b, c]) == Crc(Step(0, a), [b, c]) == Crc(Step(Step(0, a), b), [c]);
    assert Crc(Step(Step(0, a), b), [c]) == Crc(Step(Step(Step(0, a), b), c), []);
    JoinZero(0, 0, 0, d);
    ThreeOctets(a, b, c, d);
  }

  lemma PrefixOfBurst(n: nat, p: nat, w: seq<byte>)
    requires |w| == 4 && p + 4 <= n
    ensures p + 8 <= n ==>
              Burst(n, p, w)[..n - 4] == Zeros(p) + (w + Zeros(n - 8 - p)) && Burst(n, p, w)[n - 4..] == [0, 0, 0, 0]
    ensures p + 7 == n ==>
              Burst(n, p, w)[..n - 4] == Zeros(p) + [w[0], w[1], w[2]] && Burst(n, p, w)[n - 4..] == [w[3], 0, 0, 0]
    ensures p + 6 == n ==>
              Burst(n, p, w)[..n - 4] == Zeros(p) + [w[0], w[1]] && Burst(n, p, w)[n - 4..] == [w[2], w[3], 0, 0]
    ensures p + 5 == n ==>
              Burst(n, p, w)[..n - 4] == Zeros(p) + [w[0]] && Burst(n, p, w)[n - 4..] == [w[1], w[2], w[3], 0]
    ensures p + 4 == n ==> Burst(n, p, w)[..n - 4] == Zeros(p) + [] && Burst(n, p, w)[n - 4..] == w
  {
  }

  /** The one alteration that is not seen: two octets on either side of the border. */
  predicate Unseen(n: nat, p: nat, w: seq<byte>) { p + 6 == n && w == [0x61, 0xd8, 0xf4, 0xee] }

  predicate Seals(n: nat, p: nat, w: seq<byte>)
    requires |w| == 4 && p + 4 <= n
  {
    Crc(0, Burst(n, p, w)[..n - 4]) == GetMsb(Burst(n, p, w)[n - 4..])
  }

  lemma BurstInside(n: nat, p: nat, w: seq<byte>)
    requires |w| == 4 && p + 8 <= n && w != [0, 0, 0, 0]
    ensures !Seals(n, p, w)
  {
    PrefixOfBurst(n, p, w);
    hide Burst, Join, Crc;
    CrcOfZeros(p);
    JoinZero(0, 0, 0, 0);
    CrcConcat(0, Zeros(p), w + Zeros(n - 8 - p));
    CrcConcat(0, w, Zeros(n - 8 - p));
    if Crc(0, w) == 0 { FourOctets(w); } else { CrcStaysNonzero(Crc(0, w), n - 8 - p); }
  }

  lemma BurstAcross(n: nat, p: nat, w: seq<byte>)
    requires |w| == 4 && p + 5 <= n < p + 8 && w != [0, 0, 0, 0]
    ensures Seals(n, p, w) <==> Unseen(n, p, w)
  {
    PrefixOfBurst(n, p, w);
    hide Burst, Join, Crc;
    CrcOfZeros(p);
    if p + 7 == n {
      CrcConcat(0, Zeros(p), [w[0], w[1], w[2]]);
      if Crc(0, [w[0], w[1], w[2]]) == Join(w[3], 0, 0, 0) { BorderThree(w[0], w[1], w[2], w[3]); }
    } else if p + 6 == n {
      CrcConcat(0, Zeros(p), [w[0], w[1]]);
      BorderTwo(w[0], w[1], w[2], w[3]);
    } else {
      CrcConcat(0, Zeros(p), [w[0]]);
      if Crc(0, [w[0]]) == Join(w[1], w[2], w[3], 0) { BorderOne(w[0], w[1], w[2], w[3]); }
    }
  }

  lemma BurstBehind(n: nat, p: nat, w: seq<byte>)
    requires |w| == 4 && p + 4 == n && w != [0, 0, 0, 0]
    ensures !Seals(n, p, w)
  {
    PrefixOfBurst(n, p, w);
    hide Burst, Join, Crc;
    CrcOfZeros(p);
    assert Zeros(p) + [] == Zeros(p);
    JoinZero(w[0], w[1], w[2], w[3]);
  }

  lemma BurstSeal(n: nat, p: nat, w: seq<byte>)
    requires |w| == 4 && p + 4 <= n && w != [0, 0, 0, 0]
    ensures Crc(0, Burst(n, p, w)[..n - 4]) == GetMsb(Burst(n, p, w)[n - 4..]) <==> Unseen(n, p, w)
  {
    hide Burst, Crc, GetMsb;
    if p + 8 <= n {
      BurstInside(n, p, w);
    } else if p + 4 == n {
      BurstBehind(n, p, w);
    } else {
      BurstAcross(n, p, w);
    }
  }

  /**
   Octets with their checksum, altered within four consecutive octets, still have it exactly when
   the alteration is the one that is not seen.
   */
  lemma AlteredSeal(s: seq<byte>, p: nat, w: seq<byte>)
    requires |s| >= 4 && Sealed(s) && |w| == 4 && p + 4 <= |s| && w != [0, 0, 0, 0]
    ensures Sealed(XorBytes(s, Burst(|s|, p, w))) <==> Unseen(|s|, p, w)
  {
    hide Sealed, Crc, Burst, GetMsb, Unseen;
    SealOfXor(s, Burst(|s|, p, w));
    BurstSeal(|s|, p, w);
  }
}
