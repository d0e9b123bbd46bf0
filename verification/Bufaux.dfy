/**
 The encodings of values in a buffer (bufaux.c, getput.h).
 */
module Bufaux {
  import opened Bytes
  import opened MachineWords
  import opened Options
  import opened Buffers
  import Numbers
  import Padding = RsaPadding

  // ---------- fixed-width numbers, high octet first ----------

  /** PUT_32BIT */
  function PutInt(n: nat): (s: seq<byte>)
    requires n < 0x1_0000_0000
    ensures |s| == 4
  {
    [Octet(n / 0x100_0000), Octet(n / 0x1_0000 % 256), Octet(n / 0x100 % 256), Octet(n % 256)]
  }

  /** GET_32BIT */
  function GetInt(s: seq<byte>): (n: nat)
    requires |s| >= 4
    ensures n < 0x1_0000_0000
  {
    Value(s[0]) * 0x100_0000 + Value(s[1]) * 0x1_0000 + Value(s[2]) * 0x100 + Value(s[3])
  }

  /** The four octets of a number are its digits to the base 256. */
  lemma FourDigits(n: nat)
    requires n < 0x1_0000_0000
    ensures n / 0x100_0000 < 256
    ensures n == n / 0x100_0000 * 0x100_0000 + n / 0x1_0000 % 256 * 0x1_0000 + n / 0x100 % 256 * 0x100 + n % 256
  {
    var a, b, c := n / 0x100, n / 0x1_0000, n / 0x100_0000;
    Numbers.QuotientUnique(n, 0x1_0000, a / 0x100, a % 0x100 * 0x100 + n % 0x100);
    Numbers.QuotientUnique(n, 0x100_0000, b / 0x100, b % 0x100 * 0x1_0000 + n % 0x1_0000);
  }

  lemma GetPutInt(n: nat)
    requires n < 0x1_0000_0000
    ensures GetInt(PutInt(n)) == n
  {
    FourDigits(n);
    ValueOfOctet(n / 0x100_0000);
    ValueOfOctet(n / 0x1_0000 % 256);
    ValueOfOctet(n / 0x100 % 256);
    ValueOfOctet(n % 256);
    hide Octet, Value;
  }

  /** PUT_16BIT */
  function PutShort(n: nat): (s: seq<byte>)
    ensures |s| == 2
  {
    [Octet(n / 0x100 % 256), Octet(n % 256)]
  }

  /** GET_16BIT */
  function GetShort(s: seq<byte>): nat
    requires |s| >= 2
  {
    Value(s[0]) * 0x100 + Value(s[1])
  }

  // ---------- multiple-precision integers ----------

  /** mpz_sizeinbase(v, 2) */
  function NumBits(v: nat): (n: nat)
    ensures n > 0
    decreases v
  {
    if v < 2 then 1 else 1 + NumBits(v / 2)
  }

  function ByteCount(bits: nat): nat { (bits + 7) / 8 }

  lemma {:induction false} NumBitsBound(v: nat)
    ensures v < Numbers.Pow(2, NumBits(v))
    decreases v
  {
    if v >= 2 {
      NumBitsBound(v / 2);
      var w := Numbers.Pow(2, NumBits(v / 2));
      assert Numbers.Pow(2, NumBits(v)) == 2 * w;
    }
  }

  lemma FitsInBytes(v: nat)
    ensures v < Numbers.Pow(256, ByteCount(NumBits(v)))
  {
    var n := ByteCount(NumBits(v));
    NumBitsBound(v);
    Numbers.PowMonotone(2, NumBits(v), 8 * n);
    Padding.BaseIsPower(n);
  }

  function AsDigits(s: seq<byte>): (d: seq<nat>)
    ensures |d| == |s|
  {
    seq(|s|, i requires 0 <= i < |s| => Value(s[i]))
  }

  function AsBytes(d: seq<nat>): (s: seq<byte>)
    requires Padding.AreDigits(d)
    ensures |s| == |d|
  {
    seq(|d|, i requires 0 <= i < |d| => Octet(d[i]))
  }

  lemma DigitsOfBytes(d: seq<nat>)
    requires Padding.AreDigits(d)
    ensures AsDigits(AsBytes(d)) == d
  {
    forall i | 0 <= i < |d| ensures Value(AsBytes(d)[i]) == d[i] {
      ValueOfOctet(d[i]);
    }
  }

  // ---------- hexadecimal ----------

  /** The code of the character that printf and mpz_get_str use for a digit. */
  function HexChar(d: nat): nat
    requires d < 16
  {
    if d < 10 then '0' as nat + d else 'a' as nat + (d - 10)
  }

  /** What sscanf reads. */
  function HexValue(c: nat): (d: nat)
    ensures d < 16
  {
    if '0' as nat <= c <= '9' as nat then c - '0' as nat
    else if 'a' as nat <= c <= 'f' as nat then c - 'a' as nat + 10 else 0
  }

  lemma HexCharValue(d: nat)
    requires d < 16
    ensures HexValue(HexChar(d)) == d
  {
  }

  /** mpz_get_str in base 16; its length is mpz_sizeinbase(v, 16). */
  function ToHex(v: nat): (s: seq<nat>)
    ensures s != []
  {
    if v < 16 then [HexChar(v)] else ToHex(v / 16) + [HexChar(v % 16)]
  }

  /** mpz_set_str in base 16 */
  function FromHex(s: seq<nat>): nat {
    if s == [] then 0 else 16 * FromHex(s[..|s| - 1]) + HexValue(s[|s| - 1])
  }

  lemma {:induction false} ToHexIs(v: nat)
    ensures FromHex(ToHex(v)) == v
  {
    HexCharValue(v % 16);
    hide HexChar, HexValue;
    if v < 16 {
      assert [HexChar(v)][..0] == [];
      assert FromHex([]) == 0;
    } else {
      ToHexIs(v / 16);
      assert ToHex(v)[..|ToHex(v)| - 1] == ToHex(v / 16);
    }
  }

  /** A number has as many hex digits as groups of four bits. */
  lemma {:induction false} HexSize(v: nat)
    ensures |ToHex(v)| == (NumBits(v) + 3) / 4
    ensures (|ToHex(v)| + 1) / 2 == ByteCount(NumBits(v))
  {
    hide HexChar;
    if v < 16 {
      assert NumBits(v) <= 4 by { assert v / 2 < 8 && v / 2 / 2 < 4 && v / 2 / 2 / 2 < 2; }
    } else {
      HexSize(v / 16);
      assert v / 2 / 2 / 2 / 2 == v / 16;
      assert NumBits(v) == 1 + NumBits(v / 2);
      assert NumBits(v / 2) == 1 + NumBits(v / 2 / 2);
      assert NumBits(v / 2 / 2) == 1 + NumBits(v / 2 / 2 / 2);
      assert NumBits(v / 2 / 2 / 2) == 1 + NumBits(v / 16);
    }
  }

  /** The octets are the digits, to the base 256, of the number that the first i hex digits make. */
  ghost predicate Converted(done: seq<nat>, hex: seq<nat>, i: nat) {
    i <= |hex| && Padding.AreDigits(done) && Padding.FromDigits(done) == FromHex(hex[..i])
  }

  lemma NothingConverted(hex: seq<nat>)
    ensures Converted([], hex, 0)
  {
    assert hex[..0] == [];
  }

  lemma OddDigit(hex: seq<nat>)
    requires hex != []
    ensures Converted([HexValue(hex[0])], hex, 1)
  {
    assert hex[..1][..0] == [] && FromHex([]) == 0;
    assert [HexValue(hex[0])][..0] == [] && Padding.FromDigits([]) == 0;
    hide HexValue;
  }

  /** Two hex digits more are one octet more. */
  lemma PairDigit(hex: seq<nat>, i: nat, done: seq<nat>)
    requires i + 2 <= |hex| && Converted(done, hex, i)
    ensures Converted(done + [HexValue(hex[i]) * 16 + HexValue(hex[i + 1])], hex, i + 2)
  {
    hide HexValue;
    assert hex[..i + 2][..i + 1] == hex[..i + 1] && hex[..i + 1][..i] == hex[..i];
    var byte := HexValue(hex[i]) * 16 + HexValue(hex[i + 1]);
    assert (done + [byte])[..|done|] == done;
    assert FromHex(hex[..i + 1]) == 16 * FromHex(hex[..i]) + HexValue(hex[i]);
    assert FromHex(hex[..i + 2]) == 16 * FromHex(hex[..i + 1]) + HexValue(hex[i + 1]);
    assert Padding.FromDigits(done + [byte]) == 256 * Padding.FromDigits(done) + byte;
  }

  /** "%02x" */
  function TwoChars(b: byte): seq<nat> { [HexChar(Value(b) / 16), HexChar(Value(b) % 16)] }

  function HexOf(s: seq<byte>): seq<nat> {
    if s == [] then [] else HexOf(s[..|s| - 1]) + TwoChars(s[|s| - 1])
  }

  lemma HexMore(s: seq<byte>, b: byte)
    ensures HexOf(s + [b]) == HexOf(s) + TwoChars(b)
  {
    assert (s + [b])[..|s|] == s;
    hide TwoChars;
  }

  /** Reading the hex string of some octets gives the number that has them as its digits. */
  lemma {:induction false} HexValueIs(s: seq<byte>)
    ensures FromHex(HexOf(s)) == MpValue(s)
  {
    if s == [] {
      assert AsDigits(s) == [] && Padding.FromDigits([]) == 0;
    } else {
      var front, b := s[..|s| - 1], s[|s| - 1];
      HexValueIs(front);
      var h, d, e := HexOf(front), Value(b) / 16, Value(b) % 16;
      HexCharValue(d);
      HexCharValue(e);
      hide HexChar, HexValue, Value;
      var all := HexOf(s);
      assert all == h + [HexChar(d), HexChar(e)];
      assert all[..|all| - 1] == h + [HexChar(d)] && (h + [HexChar(d)])[..|h|] == h;
      assert AsDigits(s)[..|s| - 1] == AsDigits(front);
    }
  }

  // ---------- values ----------

  datatype Item = Char(c: byte) | Int(n: nat) | Str(s: seq<byte>) | Mp(v: nat)

  datatype Kind = CharKind | IntKind | StrKind | MpKind

  function KindOf(item: Item): Kind {
    match item
    case Char(_) => CharKind
    case Int(_) => IntKind
    case Str(_) => StrKind
    case Mp(_) => MpKind
  }

  const MAX_STRING := 256 * 1024

  /** Values the receiver accepts: 32-bit numbers, strings up to 256 kB, integers of less than 65536 bits. */
  predicate Fits(item: Item) {
    match item
    case Char(_) => true
    case Int(n) => n < 0x1_0000_0000
    case Str(s) => |s| <= MAX_STRING
    case Mp(v) => NumBits(v) < 0x1_0000
  }

  function MpBytes(v: nat): (s: seq<byte>)
    ensures |s| == ByteCount(NumBits(v))
  {
    FitsInBytes(v);
    Padding.FromDigitsOf(v, ByteCount(NumBits(v)));
    AsBytes(Padding.Digits(v, ByteCount(NumBits(v))))
  }

  lemma MpBytesAre(v: nat, d: seq<nat>)
    requires Padding.AreDigits(d) && |d| == ByteCount(NumBits(v)) && Padding.Digits(v, |d|) == d
    ensures AsBytes(d) == MpBytes(v)
  {
  }

  /** buffer_put_char, buffer_put_int, buffer_put_string, buffer_put_mp_int. */
  function Put(item: Item): seq<byte>
    requires Fits(item)
  {
    match item
    case Char(c) => [c]
    case Int(n) => PutInt(n)
    case Str(s) => PutInt(|s|) + s
    case Mp(v) => PutShort(NumBits(v)) + MpBytes(v)
  }

  function MpValue(s: seq<byte>): nat { Padding.FromDigits(AsDigits(s)) }

  datatype Got = Got(item: Item, rest: seq<byte>)

  /** buffer_get_char and its companions; the program stops where this is None. */
  function Get(kind: Kind, s: seq<byte>): Option<Got> {
    match kind
    case CharKind => if |s| < 1 then None else Some(Got(Char(s[0]), s[1..]))
    case IntKind => if |s| < 4 then None else Some(Got(Int(GetInt(s)), s[4..]))
    case StrKind =>
      if |s| < 4 then None else
      var n := GetInt(s);
      if n > MAX_STRING || |s| - 4 < n then None else Some(Got(Str(s[4..4 + n]), s[4 + n..]))
    case MpKind =>
      if |s| < 2 then None else
      var n := ByteCount(GetShort(s));
      if |s| - 2 < n then None else Some(Got(Mp(MpValue(s[2..2 + n])), s[2 + n..]))
  }

  lemma GetPutShort(n: nat)
    requires n < 0x1_0000
    ensures GetShort(PutShort(n)) == n
  {
    assert n / 0x100 < 256 && n / 0x100 % 256 == n / 0x100;
    ValueOfOctet(n / 0x100);
    ValueOfOctet(n % 256);
    hide Octet, Value;
  }

  lemma MpValueOfBytes(v: nat)
    ensures MpValue(MpBytes(v)) == v
  {
    var n := ByteCount(NumBits(v));
    FitsInBytes(v);
    Padding.FromDigitsOf(v, n);
    DigitsOfBytes(Padding.Digits(v, n));
    hide Padding.Digits, Padding.FromDigits, AsDigits, AsBytes;
  }

  lemma ShortHead(a: seq<byte>, b: seq<byte>)
    requires |a| >= 4
    ensures GetInt(a + b) == GetInt(a)
  {
    hide Value;
  }

  lemma ShortFront(a: seq<byte>, b: seq<byte>)
    requires |a| >= 2
    ensures GetShort(a + b) == GetShort(a)
  {
    hide Value;
  }

  lemma GetPutStr(s: seq<byte>, rest: seq<byte>)
    requires |s| <= MAX_STRING
    ensures Get(StrKind, PutInt(|s|) + s + rest) == Some(Got(Str(s), rest))
  {
    GetPutInt(|s|);
    ReadStr(PutInt(|s|), s, rest);
  }

  lemma ReadStr(head: seq<byte>, s: seq<byte>, rest: seq<byte>)
    requires |head| == 4 && GetInt(head) == |s| <= MAX_STRING
    ensures Get(StrKind, head + s + rest) == Some(Got(Str(s), rest))
  {
    var t := head + s + rest;
    assert t == head + (s + rest);
    ShortHead(head, s + rest);
    hide GetInt;
    assert t[4..4 + |s|] == s && t[4 + |s|..] == rest;
  }

  lemma GetPutMp(v: nat, rest: seq<byte>)
    requires NumBits(v) < 0x1_0000
    ensures Get(MpKind, PutShort(NumBits(v)) + MpBytes(v) + rest) == Some(Got(Mp(v), rest))
  {
    GetPutShort(NumBits(v));
    MpValueOfBytes(v);
    hide PutShort, GetShort, NumBits, MpBytes, MpValue, ByteCount;
    var n, head := ByteCount(NumBits(v)), PutShort(NumBits(v));
    var t := head + MpBytes(v) + rest;
    assert t == head + (MpBytes(v) + rest);
    ShortFront(head, MpBytes(v) + rest);
    assert t[2..2 + n] == MpBytes(v) && t[2 + n..] == rest;
  }

  lemma OctetIsNumber(n: nat)
    requires n < 256
    ensures Octet(n) as nat == n
  {
    ValueOfOctet(n);
    ValueIsNumber(Octet(n));
    hide Octet, Value;
  }

  /** A number goes into the buffer in four octets, high octet first. */
  lemma PutIntLayout(n: nat)
    requires n < 0x1_0000_0000
    ensures var s := PutInt(n);
            n == s[0] as nat * 0x100_0000 + s[1] as nat * 0x1_0000 + s[2] as nat * 0x100 + s[3] as nat
  {
    FourDigits(n);
    OctetIsNumber(n / 0x100_0000);
    OctetIsNumber(n / 0x1_0000 % 256);
    OctetIsNumber(n / 0x100 % 256);
    OctetIsNumber(n % 256);
    hide Octet;
  }

  /** The octets as a number, high octet first. */
  function Number(s: seq<byte>): nat {
    if s == [] then 0 else 0x100 * Number(s[..|s| - 1]) + s[|s| - 1] as nat
  }

  lemma {:induction false} MpValueIsNumber(s: seq<byte>)
    ensures MpValue(s) == Number(s)
  {
    if s == [] {
      assert AsDigits(s) == [] && Padding.FromDigits([]) == 0;
    } else {
      MpValueIsNumber(s[..|s| - 1]);
      ValueIsNumber(s[|s| - 1]);
      hide Value;
      assert AsDigits(s)[..|s| - 1] == AsDigits(s[..|s| - 1]);
    }
  }

  lemma {:induction false} NumBitsAtLeast(v: nat)
    ensures v > 0 ==> v >= Numbers.Pow(2, NumBits(v) - 1)
    decreases v
  {
    if v >= 2 {
      NumBitsAtLeast(v / 2);
      assert Numbers.Pow(2, NumBits(v) - 1) == 2 * Numbers.Pow(2, NumBits(v / 2) - 1);
    } else {
      assert Numbers.Pow(2, 0) == 1;
    }
  }

  /** A string goes into the buffer behind the number of its octets. */
  lemma StrLayout(t: seq<byte>)
    requires |t| <= MAX_STRING
    ensures var s := Put(Str(t)); |s| == 4 + |t| && Number(s[..4]) == |t| && s[4..] == t
  {
    var head := PutInt(|t|);
    PutIntLayout(|t|);
    NumberOfFour(head);
    hide PutInt, Number;
    assert (head + t)[..4] == head && (head + t)[4..] == t;
  }

  /** An integer goes into the buffer as the number of its bits in two octets and its octets, high
      octet first, no more than the bits need. */
  lemma MpLayout(v: nat)
    requires NumBits(v) < 0x1_0000
    ensures var s := Put(Mp(v));
            && |s| >= 2 && |s| == 2 + (Number(s[..2]) + 7) / 8 && Number(s[2..]) == v
            && Number(s[..2]) > 0 && v < Numbers.Pow(2, Number(s[..2]))
            && (if v == 0 then Number(s[..2]) == 1 else v >= Numbers.Pow(2, Number(s[..2]) - 1))
  {
    var head, tail := PutShort(NumBits(v)), MpBytes(v);
    PutShortLayout(NumBits(v));
    MpValueOfBytes(v);
    MpValueIsNumber(tail);
    NumBitsBound(v);
    NumBitsAtLeast(v);
    assert v == 0 ==> NumBits(v) == 1;
    hide PutShort, MpBytes, MpValue, Number, Numbers.Pow, NumBits;
    assert (head + tail)[..2] == head && (head + tail)[2..] == tail;
  }

  lemma NumberOfFour(s: seq<byte>)
    requires |s| == 4
    ensures Number(s) == s[0] as nat * 0x100_0000 + s[1] as nat * 0x1_0000 + s[2] as nat * 0x100 + s[3] as nat
  {
    assert s[..3][..2] == s[..2] && s[..2][..1] == s[..1] && s[..1][..0] == [];
    assert Number(s[..1]) == s[0] as nat;
    assert Number(s[..2]) == 0x100 * Number(s[..1]) + s[1] as nat;
    assert Number(s[..3]) == 0x100 * Number(s[..2]) + s[2] as nat;
  }

  lemma PutShortLayout(n: nat)
    requires n < 0x1_0000
    ensures Number(PutShort(n)) == n
  {
    var s := PutShort(n);
    assert n / 0x100 % 256 == n / 0x100;
    OctetIsNumber(n / 0x100);
    OctetIsNumber(n % 256);
    hide Octet;
    assert s[..1][..0] == [] && Number(s[..1]) == s[0] as nat;
  }

  lemma ValuesAreNumbers(s: seq<byte>)
    ensures |s| >= 4 ==> GetInt(s) == Number(s[..4])
    ensures |s| >= 2 ==> GetShort(s) == Number(s[..2])
  {
    if |s| >= 4 {
      NumberOfFour(s[..4]);
      ValueIsNumber(s[2]);
      ValueIsNumber(s[3]);
    }
    if |s| >= 2 {
      ValueIsNumber(s[0]);
      ValueIsNumber(s[1]);
      assert s[..2][..1] == s[..1] && s[..1][..0] == [];
      assert Number(s[..1]) == s[0] as nat;
    }
    hide Value;
  }

  /** Reading stops the program exactly when the octets are too few, or a string is longer than 256 kB;
      otherwise it gives the number that the octets are, or the octets counted before them. */
  lemma GetExactly(kind: Kind, s: seq<byte>)
    ensures Get(kind, s).None? <==>
            match kind
            case CharKind => s == []
            case IntKind => |s| < 4
            case StrKind => |s| < 4 || Number(s[..4]) > 262144 || |s| < 4 + Number(s[..4])
            case MpKind => |s| < 2 || |s| < 2 + (Number(s[..2]) + 7) / 8
    ensures Get(kind, s).Some? ==>
              var (item, rest) := (Get(kind, s).value.item, Get(kind, s).value.rest);
              match kind
              case CharKind => s == [s[0]] + rest && item == Char(s[0])
              case IntKind => rest == s[4..] && item == Int(Number(s[..4]))
              case StrKind => item.Str? && |item.s| == Number(s[..4]) && s == s[..4] + item.s + rest
              case MpKind =>
                var end := 2 + (Number(s[..2]) + 7) / 8;
                end <= |s| && rest == s[end..] && item == Mp(Number(s[2..end]))
  {
    ValuesAreNumbers(s);
    hide GetInt, GetShort, MpValue, Number;
    if kind.MpKind? && |s| >= 2 && |s| >= 2 + (Number(s[..2]) + 7) / 8 {
      MpValueIsNumber(s[2..2 + (Number(s[..2]) + 7) / 8]);
    }
  }

  /** What was put is what is got, and what follows it is left. */
  lemma GetPut(item: Item, rest: seq<byte>)
    requires Fits(item)
    ensures Get(KindOf(item), Put(item) + rest) == Some(Got(item, rest))
  {
    match item {
      case Char(c) => assert ([c] + rest)[1..] == rest;
      case Int(n) =>
        GetPutInt(n);
        hide PutInt, GetInt;
        ShortHead(PutInt(n), rest);
        assert (PutInt(n) + rest)[4..] == rest;
      case Str(s) => GetPutStr(s, rest);
      case Mp(v) => GetPutMp(v, rest);
    }
  }

  predicate AllFit(items: seq<Item>) { forall i :: 0 <= i < |items| ==> Fits(items[i]) }

  function PutAll(items: seq<Item>): seq<byte>
    requires AllFit(items)
  {
    if items == [] then [] else Put(items[0]) + PutAll(items[1..])
  }

  function Kinds(items: seq<Item>): seq<Kind> { seq(|items|, i requires 0 <= i < |items| => KindOf(items[i])) }

  datatype GotAll = GotAll(items: seq<Item>, rest: seq<byte>)

  /** Reads one value after the other. */
  function GetAll(kinds: seq<Kind>, s: seq<byte>): Option<GotAll> {
    if kinds == [] then Some(GotAll([], s)) else
    match Get(kinds[0], s)
    case None => None
    case Some(g) =>
      match GetAll(kinds[1..], g.rest)
      case None => None
      case Some(a) => Some(GotAll([g.item] + a.items, a.rest))
  }

  /** A reader that asks for the kinds that were put gets the values that were put. */
  lemma {:induction false} GetAllPutAll(items: seq<Item>, rest: seq<byte>)
    requires AllFit(items)
    ensures GetAll(Kinds(items), PutAll(items) + rest) == Some(GotAll(items, rest))
  {
    hide Get, Put, KindOf, Fits;
    if items == [] {
      assert [] + rest == rest;
    } else {
      var tail := PutAll(items[1..]) + rest;
      assert PutAll(items) + rest == Put(items[0]) + tail;
      GetPut(items[0], tail);
      GetAllPutAll(items[1..], rest);
      assert Kinds(items)[1..] == Kinds(items[1..]);
      assert [items[0]] + items[1..] == items;
    }
  }

  // ---------- on a buffer ----------

  method PutItem(b: Buffer, item: Item)
    requires b.Valid() && Fits(item)
    modifies b, b.buf
    ensures b.Valid() && (b.buf == old(b.buf) || fresh(b.buf))
    ensures b.Contents() == old(b.Contents()) + Put(item)
  {
    hide PutInt, PutShort, NumBits, MpBytes;
    match item {
      case Char(c) => b.Append([c]);
      case Int(n) => b.Append(PutInt(n));
      case Str(s) => AppendBoth(b, PutInt(|s|), s);
      case Mp(v) => PutMpInt(b, v);
    }
  }

  /** buffer_put_mp_int */
  method PutMpInt(b: Buffer, v: nat)
    requires b.Valid()
    modifies b, b.buf
    ensures b.Valid() && (b.buf == old(b.buf) || fresh(b.buf))
    ensures b.Contents() == old(b.Contents()) + (PutShort(NumBits(v)) + MpBytes(v))
  {
    hide PutShort, NumBits, MpBytes;
    var octets := HexToOctets(v);
    AppendBoth(b, PutShort(NumBits(v)), octets);
  }

  /** The hex digits of v, and what the conversion makes of them. */
  method HexToOctets(v: nat) returns (octets: seq<byte>)
    ensures octets == MpBytes(v) && |octets| == ByteCount(NumBits(v))
  {
    hide ToHex, MpBytes, NumBits, FromHex, Padding.FromDigits, Padding.Digits;
    var hex := ToHex(v);
    var buf := new nat[|hex|](k requires 0 <= k < |hex| => hex[k]);
    assert buf[..] == hex;
    var oi := ConvertInPlace(buf);
    assert hex[..|hex|] == hex;
    ToHexIs(v);
    HexSize(v);
    Padding.DigitsOfFrom(buf[..oi]);
    octets := AsBytes(buf[..oi]);
    MpBytesAre(v, buf[..oi]);
  }

  /**
   The loop that turns hex digits into octets within the array that holds them: the octets
   written never reach the digits still to be read.
   */
  method ConvertInPlace(buf: array<nat>) returns (oi: nat)
    requires buf.Length > 0
    modifies buf
    ensures oi == (buf.Length + 1) / 2
    ensures Converted(buf[..oi], old(buf[..]), buf.Length)
  {
    hide Converted, HexValue;
    ghost var hex := buf[..];
    var i;
    i, oi := 0, 0;
    NothingConverted(hex);
    if buf.Length % 2 == 1 {
      var byte := HexValue(buf[0]);
      OddDigit(hex);
      buf[0] := byte;
      oi := 1;
      i := 1;
    }
    ghost var odd := i;
    ghost var done: seq<nat> := buf[..oi];
    assert odd == 1 ==> done == [HexValue(hex[0])];
    while i < buf.Length
      invariant i <= buf.Length && oi <= i && 2 * oi == i + odd && odd == buf.Length % 2
      invariant buf[..oi] == done && Converted(done, hex, i)
      invariant forall k :: i <= k < buf.Length ==> buf[k] == hex[k]
      decreases buf.Length - i
    {
      var byte := HexValue(buf[i]) * 16 + HexValue(buf[i + 1]);
      PairDigit(hex, i, done);
      buf[oi] := byte;
      assert buf[..oi] == done;
      done := done + [byte];
      assert buf[..oi + 1] == done;
      oi := oi + 1;
      i := i + 2;
    }
  }

  method AppendBoth(b: Buffer, head: seq<byte>, tail: seq<byte>)
    requires b.Valid()
    modifies b, b.buf
    ensures b.Valid() && (b.buf == old(b.buf) || fresh(b.buf))
    ensures b.Contents() == old(b.Contents()) + (head + tail)
  {
    hide *;
    ghost var q := b.Contents();
    b.Append(head);
    b.Append(tail);
    assert q + head + tail == q + (head + tail);
  }

  lemma NextOctet(q: seq<byte>, i: nat, data: seq<byte>, rest: seq<byte>)
    requires i <= |q| && |data| == 1 && data + rest == q[i..]
    ensures i < |q| && rest == q[i + 1..] && q[..i] + data == q[..i + 1]
  {
    assert q[i] == q[i..][0] == data[0];
    assert rest == q[i..][1..];
  }

  /** The conversion of buffer_get_mp_int: each octet becomes two characters of a hex string. */
  method GetHex(b: Buffer, n: nat) returns (ok: bool, hex: seq<nat>, ghost octets: seq<byte>)
    requires b.Valid()
    modifies b
    ensures b.Valid() && b.buf == old(b.buf)
    ensures ok <==> n <= |old(b.Contents())|
    ensures ok ==> octets + b.Contents() == old(b.Contents()) && |octets| == n && hex == HexOf(octets)
  {
    hex, octets := [], [];
    ghost var q := b.Contents();
    var i := 0;
    while i < n
      invariant b.Valid() && b.buf == old(b.buf)
      invariant i <= n && i <= |q| && octets == q[..i] && b.Contents() == q[i..] && hex == HexOf(octets)
    {
      hide *;
      var got, data := b.Get(1);
      if !got {
        return false, hex, octets;
      }
      NextOctet(q, i, data, b.Contents());
      HexMore(octets, data[0]);
      assert [data[0]] == data;
      hex := hex + TwoChars(data[0]);
      octets := octets + data;
      i := i + 1;
    }
    ok := true;
  }

  method GetItem(b: Buffer, kind: Kind) returns (r: Option<Item>)
    requires b.Valid()
    modifies b
    ensures b.Valid() && b.buf == old(b.buf)
    ensures r.Some? <==> old(Get(kind, b.Contents())).Some?
    ensures r.Some? ==> Some(Got(r.value, b.Contents())) == old(Get(kind, b.Contents()))
  {
    hide GetInt, GetShort, MpValue, ByteCount, FromHex, HexOf, Buffer.Valid, Buffer.Contents;
    ghost var q := b.Contents();
    match kind {
      case CharKind =>
        var ok, data := b.Get(1);
        if !ok { return None; }
        assert b.Contents() == q[1..];
        r := Some(Char(data[0]));
      case IntKind =>
        var ok, data := b.Get(4);
        if !ok { return None; }
        SplitHead(data, b.Contents(), q);
        r := Some(Int(GetInt(data)));
      case StrKind =>
        var ok, data := b.Get(4);
        if !ok { return None; }
        SplitHead(data, b.Contents(), q);
        var n := GetInt(data);
        if n > MAX_STRING { return None; }
        var ok', s := b.Get(n);
        if !ok' { return None; }
        assert s == q[4..4 + n] && b.Contents() == q[4 + n..];
        r := Some(Str(s));
      case MpKind =>
        var ok, data := b.Get(2);
        if !ok { return None; }
        SplitShort(data, b.Contents(), q);
        var n := ByteCount(GetShort(data));
        var ok', hex;
        ghost var s;
        ok', hex, s := GetHex(b, n);
        if !ok' { return None; }
        assert s == q[2..2 + n] && b.Contents() == q[2 + n..];
        HexValueIs(s);
        r := Some(Mp(FromHex(hex)));
    }
  }

  lemma SplitHead(a: seq<byte>, b: seq<byte>, q: seq<byte>)
    requires |a| == 4 && a + b == q
    ensures GetInt(a) == GetInt(q) && b == q[4..]
  {
    ShortHead(a, b);
  }

  lemma SplitShort(a: seq<byte>, b: seq<byte>, q: seq<byte>)
    requires |a| == 2 && a + b == q
    ensures GetShort(a) == GetShort(q) && b == q[2..]
  {
  }
}
