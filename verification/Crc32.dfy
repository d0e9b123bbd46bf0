/**
 The CRC of crc32.c.  The table-driven loop is proved to be eight steps of the shift
 register with polynomial 0xedb88320 per byte, and linear with respect to XOR.
 */
module Crc32 {
  import opened Bytes
  import opened MachineWords

  const POLYNOMIAL: word32 := 0xedb88320

  /** One step of the shift register. */
  function Shift(c: word32): word32 {
    if c & 1 == 1 then (c >> 1) ^ POLYNOMIAL else c >> 1
  }

  function Shift8(c: word32): word32 {
    Shift(Shift(Shift(Shift(Shift(Shift(Shift(Shift(c))))))))
  }

  // ---------- crc32_tab, in rows of sixteen ----------

  function Row0(b: byte): word32 {
    match b
    case 0 => 0x00000000 case 1 => 0x77073096 case 2 => 0xee0e612c case 3 => 0x990951ba
    case 4 => 0x076dc419 case 5 => 0x706af48f case 6 => 0xe963a535 case 7 => 0x9e6495a3
    case 8 => 0x0edb8832 case 9 => 0x79dcb8a4 case 10 => 0xe0d5e91e case 11 => 0x97d2d988
    case 12 => 0x09b64c2b case 13 => 0x7eb17cbd case 14 => 0xe7b82d07 case _ => 0x90bf1d91
  }

  function Row1(b: byte): word32 {
    match b
    case 16 => 0x1db71064 case 17 => 0x6ab020f2 case 18 => 0xf3b97148 case 19 => 0x84be41de
    case 20 => 0x1adad47d case 21 => 0x6ddde4eb case 22 => 0xf4d4b551 case 23 => 0x83d385c7
    case 24 => 0x136c9856 case 25 => 0x646ba8c0 case 26 => 0xfd62f97a case 27 => 0x8a65c9ec
    case 28 => 0x14015c4f case 29 => 0x63066cd9 case 30 => 0xfa0f3d63 case _ => 0x8d080df5
  }

  function Row2(b: byte): word32 {
    match b
    case 32 => 0x3b6e20c8 case 33 => 0x4c69105e case 34 => 0xd56041e4 case 35 => 0xa2677172
    case 36 => 0x3c03e4d1 case 37 => 0x4b04d447 case 38 => 0xd20d85fd case 39 => 0xa50ab56b
    case 40 => 0x35b5a8fa case 41 => 0x42b2986c case 42 => 0xdbbbc9d6 case 43 => 0xacbcf940
    case 44 => 0x32d86ce3 case 45 => 0x45df5c75 case 46 => 0xdcd60dcf case _ => 0xabd13d59
  }

  function Row3(b: byte): word32 {
    match b
    case 48 => 0x26d930ac case 49 => 0x51de003a case 50 => 0xc8d75180 case 51 => 0xbfd06116
    case 52 => 0x21b4f4b5 case 53 => 0x56b3c423 case 54 => 0xcfba9599 case 55 => 0xb8bda50f
    case 56 => 0x2802b89e case 57 => 0x5f058808 case 58 => 0xc60cd9b2 case 59 => 0xb10be924
    case 60 => 0x2f6f7c87 case 61 => 0x58684c11 case 62 => 0xc1611dab case _ => 0xb6662d3d
  }

  function Row4(b: byte): word32 {
    match b
    case 64 => 0x76dc4190 case 65 => 0x01db7106 case 66 => 0x98d220bc case 67 => 0xefd5102a
    case 68 => 0x71b18589 case 69 => 0x06b6b51f case 70 => 0x9fbfe4a5 case 71 => 0xe8b8d433
    case 72 => 0x7807c9a2 case 73 => 0x0f00f934 case 74 => 0x9609a88e case 75 => 0xe10e9818
    case 76 => 0x7f6a0dbb case 77 => 0x086d3d2d case 78 => 0x91646c97 case _ => 0xe6635c01
  }

  function Row5(b: byte): word32 {
    match b
    case 80 => 0x6b6b51f4 case 81 => 0x1c6c6162 case 82 => 0x856530d8 case 83 => 0xf262004e
    case 84 => 0x6c0695ed case 85 => 0x1b01a57b case 86 => 0x8208f4c1 case 87 => 0xf50fc457
    case 88 => 0x65b0d9c6 case 89 => 0x12b7e950 case 90 => 0x8bbeb8ea case 91 => 0xfcb9887c
    case 92 => 0x62dd1ddf case 93 => 0x15da2d49 case 94 => 0x8cd37cf3 case _ => 0xfbd44c65
  }

  function Row6(b: byte): word32 {
    match b
    case 96 => 0x4db26158 case 97 => 0x3ab551ce case 98 => 0xa3bc0074 case 99 => 0xd4bb30e2
    case 100 => 0x4adfa541 case 101 => 0x3dd895d7 case 102 => 0xa4d1c46d case 103 => 0xd3d6f4fb
    case 104 => 0x4369e96a case 105 => 0x346ed9fc case 106 => 0xad678846 case 107 => 0xda60b8d0
    case 108 => 0x44042d73 case 109 => 0x33031de5 case 110 => 0xaa0a4c5f case _ => 0xdd0d7cc9
  }

  function Row7(b: byte): word32 {
    match b
    case 112 => 0x5005713c case 113 => 0x270241aa case 114 => 0xbe0b1010 case 115 => 0xc90c2086
    case 116 => 0x5768b525 case 117 => 0x206f85b3 case 118 => 0xb966d409 case 119 => 0xce61e49f
    case 120 => 0x5edef90e case 121 => 0x29d9c998 case 122 => 0xb0d09822 case 123 => 0xc7d7a8b4
    case 124 => 0x59b33d17 case 125 => 0x2eb40d81 case 126 => 0xb7bd5c3b case _ => 0xc0ba6cad
  }

  function Row8(b: byte): word32 {
    match b
    case 128 => 0xedb88320 case 129 => 0x9abfb3b6 case 130 => 0x03b6e20c case 131 => 0x74b1d29a
    case 132 => 0xead54739 case 133 => 0x9dd277af case 134 => 0x04db2615 case 135 => 0x73dc1683
    case 136 => 0xe3630b12 case 137 => 0x94643b84 case 138 => 0x0d6d6a3e case 139 => 0x7a6a5aa8
    case 140 => 0xe40ecf0b case 141 => 0x9309ff9d case 142 => 0x0a00ae27 case _ => 0x7d079eb1
  }

  function Row9(b: byte): word32 {
    match b
    case 144 => 0xf00f9344 case 145 => 0x8708a3d2 case 146 => 0x1e01f268 case 147 => 0x6906c2fe
    case 148 => 0xf762575d case 149 => 0x806567cb case 150 => 0x196c3671 case 151 => 0x6e6b06e7
    case 152 => 0xfed41b76 case 153 => 0x89d32be0 case 154 => 0x10da7a5a case 155 => 0x67dd4acc
    case 156 => 0xf9b9df6f case 157 => 0x8ebeeff9 case 158 => 0x17b7be43 case _ => 0x60b08ed5
  }

  function RowA(b: byte): word32 {
    match b
    case 160 => 0xd6d6a3e8 case 161 => 0xa1d1937e case 162 => 0x38d8c2c4 case 163 => 0x4fdff252
    case 164 => 0xd1bb67f1 case 165 => 0xa6bc5767 case 166 => 0x3fb506dd case 167 => 0x48b2364b
    case 168 => 0xd80d2bda case 169 => 0xaf0a1b4c case 170 => 0x36034af6 case 171 => 0x41047a60
    case 172 => 0xdf60efc3 case 173 => 0xa867df55 case 174 => 0x316e8eef case _ => 0x4669be79
  }

  function RowB(b: byte): word32 {
    match b
    case 176 => 0xcb61b38c case 177 => 0xbc66831a case 178 => 0x256fd2a0 case 179 => 0x5268e236
    case 180 => 0xcc0c7795 case 181 => 0xbb0b4703 case 182 => 0x220216b9 case 183 => 0x5505262f
    case 184 => 0xc5ba3bbe case 185 => 0xb2bd0b28 case 186 => 0x2bb45a92 case 187 => 0x5cb36a04
    case 188 => 0xc2d7ffa7 case 189 => 0xb5d0cf31 case 190 => 0x2cd99e8b case _ => 0x5bdeae1d
  }

  function RowC(b: byte): word32 {
    match b
    case 192 => 0x9b64c2b0 case 193 => 0xec63f226 case 194 => 0x756aa39c case 195 => 0x026d930a
    case 196 => 0x9c0906a9 case 197 => 0xeb0e363f case 198 => 0x72076785 case 199 => 0x05005713
    case 200 => 0x95bf4a82 case 201 => 0xe2b87a14 case 202 => 0x7bb12bae case 203 => 0x0cb61b38
    case 204 => 0x92d28e9b case 205 => 0xe5d5be0d case 206 => 0x7cdcefb7 case _ => 0x0bdbdf21
  }

  function RowD(b: byte): word32 {
    match b
    case 208 => 0x86d3d2d4 case 209 => 0xf1d4e242 case 210 => 0x68ddb3f8 case 211 => 0x1fda836e
    case 212 => 0x81be16cd case 213 => 0xf6b9265b case 214 => 0x6fb077e1 case 215 => 0x18b74777
    case 216 => 0x88085ae6 case 217 => 0xff0f6a70 case 218 => 0x66063bca case 219 => 0x11010b5c
    case 220 => 0x8f659eff case 221 => 0xf862ae69 case 222 => 0x616bffd3 case _ => 0x166ccf45
  }

  function RowE(b: byte): word32 {
    match b
    case 224 => 0xa00ae278 case 225 => 0xd70dd2ee case 226 => 0x4e048354 case 227 => 0x3903b3c2
    case 228 => 0xa7672661 case 229 => 0xd06016f7 case 230 => 0x4969474d case 231 => 0x3e6e77db
    case 232 => 0xaed16a4a case 233 => 0xd9d65adc case 234 => 0x40df0b66 case 235 => 0x37d83bf0
    case 236 => 0xa9bcae53 case 237 => 0xdebb9ec5 case 238 => 0x47b2cf7f case _ => 0x30b5ffe9
  }

  function RowF(b: byte): word32 {
    match b
    case 240 => 0xbdbdf21c case 241 => 0xcabac28a case 242 => 0x53b39330 case 243 => 0x24b4a3a6
    case 244 => 0xbad03605 case 245 => 0xcdd70693 case 246 => 0x54de5729 case 247 => 0x23d967bf
    case 248 => 0xb3667a2e case 249 => 0xc4614ab8 case 250 => 0x5d681b02 case 251 => 0x2a6f2b94
    case 252 => 0xb40bbe37 case 253 => 0xc30c8ea1 case 254 => 0x5a05df1b case _ => 0x2d02ef8d
  }

  function Entry(b: byte): word32 {
    if b < 16 then Row0(b)
    else if b < 32 then Row1(b)
    else if b < 48 then Row2(b)
    else if b < 64 then Row3(b)
    else if b < 80 then Row4(b)
    else if b < 96 then Row5(b)
    else if b < 112 then Row6(b)
    else if b < 128 then Row7(b)
    else if b < 144 then Row8(b)
    else if b < 160 then Row9(b)
    else if b < 176 then RowA(b)
    else if b < 192 then RowB(b)
    else if b < 208 then RowC(b)
    else if b < 224 then RowD(b)
    else if b < 240 then RowE(b)
    else RowF(b)
  }

  lemma Entries0(b: byte)
    requires b < 16
    ensures Row0(b) == Shift8(Widen(b))
  {
  }

  lemma Entries1(b: byte)
    requires 16 <= b < 32
    ensures Row1(b) == Shift8(Widen(b))
  {
  }

  lemma Entries2(b: byte)
    requires 32 <= b < 48
    ensures Row2(b) == Shift8(Widen(b))
  {
  }

  lemma Entries3(b: byte)
    requires 48 <= b < 64
    ensures Row3(b) == Shift8(Widen(b))
  {
  }

  lemma Entries4(b: byte)
    requires 64 <= b < 80
    ensures Row4(b) == Shift8(Widen(b))
  {
  }

  lemma Entries5(b: byte)
    requires 80 <= b < 96
    ensures Row5(b) == Shift8(Widen(b))
  {
  }

  lemma Entries6(b: byte)
    requires 96 <= b < 112
    ensures Row6(b) == Shift8(Widen(b))
  {
  }

  lemma Entries7(b: byte)
    requires 112 <= b < 128
    ensures Row7(b) == Shift8(Widen(b))
  {
  }

  lemma Entries8(b: byte)
    requires 128 <= b < 144
    ensures Row8(b) == Shift8(Widen(b))
  {
  }

  lemma Entries9(b: byte)
    requires 144 <= b < 160
    ensures Row9(b) == Shift8(Widen(b))
  {
  }

  lemma EntriesA(b: byte)
    requires 160 <= b < 176
    ensures RowA(b) == Shift8(Widen(b))
  {
  }

  lemma EntriesB(b: byte)
    requires 176 <= b < 192
    ensures RowB(b) == Shift8(Widen(b))
  {
  }

  lemma EntriesC(b: byte)
    requires 192 <= b < 208
    ensures RowC(b) == Shift8(Widen(b))
  {
  }

  lemma EntriesD(b: byte)
    requires 208 <= b < 224
    ensures RowD(b) == Shift8(Widen(b))
  {
  }

  lemma EntriesE(b: byte)
    requires 224 <= b < 240
    ensures RowE(b) == Shift8(Widen(b))
  {
  }

  lemma EntriesF(b: byte)
    requires 240 <= b
    ensures RowF(b) == Shift8(Widen(b))
  {
  }

  /** Every table entry is the result of eight shift steps on its index. */
  lemma TableIsShift(b: byte)
    ensures Entry(b) == Shift8(Widen(b))
  {
    hide Shift8, Widen, Row0, Row1, Row2, Row3, Row4, Row5, Row6, Row7, Row8, Row9, RowA, RowB, RowC, RowD, RowE, RowF;
    if b < 16 { Entries0(b); }
    else if b < 32 { Entries1(b); }
    else if b < 48 { Entries2(b); }
    else if b < 64 { Entries3(b); }
    else if b < 80 { Entries4(b); }
    else if b < 96 { Entries5(b); }
    else if b < 112 { Entries6(b); }
    else if b < 128 { Entries7(b); }
    else if b < 144 { Entries8(b); }
    else if b < 160 { Entries9(b); }
    else if b < 176 { EntriesA(b); }
    else if b < 192 { EntriesB(b); }
    else if b < 208 { EntriesC(b); }
    else if b < 224 { EntriesD(b); }
    else if b < 240 { EntriesE(b); }
    else { EntriesF(b); }
  }

  // ---------- bit facts ----------

  function Shr8(a: word32): word32 { a >> 8 }
  function LowByte(a: word32): byte { (a & 0xff) as byte }
  function Widen(b: byte): word32 { b as word32 }
  function Top(a: word32): word32 { a & 0xffffff00 }

  lemma XorBits(x: word32, y: word32)
    ensures (x ^ y) >> 1 == (x >> 1) ^ (y >> 1)
    ensures (x ^ y) & 1 == 1 <==> (x & 1 == 1) != (y & 1 == 1)
  {
  }

  lemma XorMoves(a: word32, b: word32, p: word32)
    ensures (a ^ b) ^ p == a ^ (b ^ p) == (a ^ p) ^ b && (a ^ p) ^ (b ^ p) == a ^ b
  {
  }

  lemma WordParts(x: word32, b: byte)
    ensures x == (((x & 0xff) as byte) as word32) ^ (x & 0xffffff00)
    ensures (x ^ (b as word32)) >> 8 == x >> 8
  {
  }

  // ---------- linearity of the shift register ----------

  lemma ShiftOperator(x: word32, y: word32)
    ensures Shift(x ^ y) == Shift(x) ^ Shift(y)
  {
    XorBits(x, y);
    XorMoves(x >> 1, y >> 1, POLYNOMIAL);
  }

  lemma ShiftXor(x: word32, y: word32)
    ensures Shift(Xor(x, y)) == Xor(Shift(x), Shift(y))
  {
    hide Shift;
    ShiftOperator(x, y);
  }

  lemma Shift8Xor(x: word32, y: word32)
    ensures Shift8(Xor(x, y)) == Xor(Shift8(x), Shift8(y))
  {
    hide Shift, Xor;
    var x1, y1 := Shift(x), Shift(y);
    var x2, y2 := Shift(x1), Shift(y1);
    var x3, y3 := Shift(x2), Shift(y2);
    var x4, y4 := Shift(x3), Shift(y3);
    var x5, y5 := Shift(x4), Shift(y4);
    var x6, y6 := Shift(x5), Shift(y5);
    var x7, y7 := Shift(x6), Shift(y6);
    ShiftXor(x, y);
    ShiftXor(x1, y1);
    ShiftXor(x2, y2);
    ShiftXor(x3, y3);
    ShiftXor(x4, y4);
    ShiftXor(x5, y5);
    ShiftXor(x6, y6);
    ShiftXor(x7, y7);
  }

  /** A register whose low byte is clear only shifts. */
  lemma Shift8Top(x: word32)
    ensures Shift8(Top(x)) == Shr8(x)
  {
  }

  // ---------- the CRC of a message ----------

  /** The body of the crc32 loop. */
  function Step(c: word32, b: byte): word32 {
    Xor(Entry(LowByte(Xor(c, Widen(b)))), Shr8(c))
  }

  lemma XorWidened(c: word32, b: byte)
    ensures Shr8(Xor(c, Widen(b))) == Shr8(c)
  {
    WordParts(c, b);
  }

  lemma WordIsParts(x: word32)
    ensures x == Xor(Widen(LowByte(x)), Top(x))
  {
    WordParts(x, 0);
  }

  /** One table step is eight shift steps. */
  lemma StepIsShift(c: word32, b: byte)
    ensures Step(c, b) == Shift8(Xor(c, Widen(b)))
  {
    hide Xor, Entry, Shift8, LowByte, Top, Widen, Shr8;
    var x := Xor(c, Widen(b));
    XorWidened(c, b);
    WordIsParts(x);
    Shift8Xor(Widen(LowByte(x)), Top(x));
    Shift8Top(x);
    TableIsShift(LowByte(x));
  }

  /** The register after the bytes of s, starting from c. */
  function Crc(c: word32, s: seq<byte>): word32
    decreases |s|
  {
    if s == [] then c else Crc(Step(c, s[0]), s[1..])
  }

  /** The same bit by bit: no table, eight shift steps for every byte. */
  function BitwiseCrc(c: word32, s: seq<byte>): word32
    decreases |s|
  {
    if s == [] then c else BitwiseCrc(Shift8(Xor(c, Widen(s[0]))), s[1..])
  }

  lemma {:induction false} TableDrivenIsBitwise(c: word32, s: seq<byte>)
    ensures Crc(c, s) == BitwiseCrc(c, s)
    decreases |s|
  {
    hide Step, Xor, Shift8, Widen;
    if s != [] {
      StepIsShift(c, s[0]);
      TableDrivenIsBitwise(Step(c, s[0]), s[1..]);
    }
  }

  lemma {:induction false} CrcConcat(c: word32, s: seq<byte>, t: seq<byte>)
    ensures Crc(c, s + t) == Crc(Crc(c, s), t)
    decreases |s|
  {
    hide Step;
    if s == [] {
      assert s + t == t;
    } else {
      CrcConcat(Step(c, s[0]), s[1..], t);
      assert (s + t)[1..] == s[1..] + t;
    }
  }

  /** crc32: the table-driven loop. */
  method Crc32(s: seq<byte>) returns (crc: word32)
    ensures crc == BitwiseCrc(0, s)
    ensures crc == Crc(0, s)
  {
    hide Entry, Xor, LowByte, Widen, Shr8;
    crc := 0;
    var i := 0;
    assert s[0..] == s;
    while i < |s|
      invariant 0 <= i <= |s|
      invariant Crc(crc, s[i..]) == Crc(0, s)
    {
      assert s[i..][0] == s[i] && s[i..][1..] == s[i + 1..];
      crc := Xor(Entry(LowByte(Xor(crc, Widen(s[i])))), Shr8(crc));
      i := i + 1;
    }
    TableDrivenIsBitwise(0, s);
  }

  function XorBytes(s: seq<byte>, t: seq<byte>): (r: seq<byte>)
    requires |s| == |t|
    ensures |r| == |s|
  {
    seq(|s|, i requires 0 <= i < |s| => s[i] ^ t[i])
  }

  lemma XorByte(a: byte, b: byte)
    ensures Widen(a ^ b) == Xor(Widen(a), Widen(b))
  {
  }

  lemma StepXor(c: word32, d: word32, a: byte, b: byte)
    ensures Step(Xor(c, d), a ^ b) == Xor(Step(c, a), Step(d, b))
  {
    hide Xor, Step, Shift8, Widen;
    StepIsShift(Xor(c, d), a ^ b);
    StepIsShift(c, a);
    StepIsShift(d, b);
    XorByte(a, b);
    XorExchange(c, d, Widen(a), Widen(b));
    Shift8Xor(Xor(c, Widen(a)), Xor(d, Widen(b)));
  }

  /** The CRC is linear: the CRC of a XOR is the XOR of the CRCs. */
  lemma {:induction false} CrcLinear(c: word32, d: word32, s: seq<byte>, t: seq<byte>)
    requires |s| == |t|
    ensures Crc(Xor(c, d), XorBytes(s, t)) == Xor(Crc(c, s), Crc(d, t))
    decreases |s|
  {
    hide Xor, Step;
    if s != [] {
      var x := XorBytes(s, t);
      StepXor(c, d, s[0], t[0]);
      assert x[1..] == XorBytes(s[1..], t[1..]);
      CrcLinear(Step(c, s[0]), Step(d, t[0]), s[1..], t[1..]);
    }
  }
}
