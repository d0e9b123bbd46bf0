/**
 What goes over the wire and what comes off it, in octets: the layout of a frame, when a frame is
 taken, and that an altered one is not.
 */
module PacketChecks {
  import opened Bytes
  import opened MachineWords
  import opened Modes
  import opened Ciphers
  import opened Bufaux
  import opened Packets
  import opened CrcBursts
  import Arcfour
  import Crc32
  import Deattack

  // ---------- the layout of a frame ----------

  /** The first four octets as a number, highest first. */
  function Field(s: seq<byte>): nat
    requires |s| >= 4
  {
    s[0] as nat * 0x100_0000 + s[1] as nat * 0x1_0000 + s[2] as nat * 0x100 + s[3] as nat
  }

  lemma FieldIs(s: seq<byte>)
    requires |s| >= 4
    ensures GetInt(s) == Field(s)
  {
    ValueIsNumber(s[0]);
    ValueIsNumber(s[1]);
    ValueIsNumber(s[2]);
    ValueIsNumber(s[3]);
    hide Value;
  }

  /** Padding up to the next multiple of eight, at least one octet. */
  function Padded(len: nat): (n: nat)
    ensures n % 8 == 0 && len < n <= len + 8
  {
    (len + 8) / 8 * 8
  }

  lemma PaddedIs(len: nat)
    ensures len + PaddingLength(len) == Padded(len)
  {
  }

  /** The octets of a packet before encryption: padding, type, data and check octets. */
  ghost predicate LaidOut(plain: seq<byte>, kind: byte, body: seq<byte>) {
    var len := 1 + |body| + 4;
    var n := Padded(len);
    && |plain| == n >= 8 && Sealed(plain)
    && plain[n - len] == kind && plain[n - len + 1..n - 4] == body
  }

  /**
   A frame is the number of octets of type, data and check octets, highest octet first, and the
   encrypted packet; the padding is random behind a cipher and zero without one.
   */
  lemma FrameLayout(c: Context, m: Message)
    requires Sendable(m)
    ensures var f, len := Frame(c, m), 1 + |m.body| + 4;
            var plain := Plain(c, m);
            && |f.data| == 4 + Padded(len) && Field(f.data) == len
            && LaidOut(plain, m.kind, m.body)
            && Takes(c, |plain|) && f == Output(f.data[..4] + Encrypt(c, plain).data, Encrypt(c, plain).after)
            && forall i :: 0 <= i < Padded(len) - len ==>
                 plain[i] == if c.NoCipher? then 0 else m.pads[8 - (Padded(len) - len) + i]
  {
    var len := LengthField(m);
    FrameFits(c, m);
    PaddedIs(len);
    PlainLayout(c, m);
    hide Encrypt, Plain, Takes, Sealed, PaddingOf;
    FieldIs(Frame(c, m).data);
    GetPutInt(len);
    assert Frame(c, m).data[..4] == PutInt(len);
  }

  lemma PlainLayout(c: Context, m: Message)
    requires Sendable(m)
    ensures LaidOut(Plain(c, m), m.kind, m.body)
    ensures var len := 1 + |m.body| + 4;
            forall i :: 0 <= i < Padded(len) - len ==>
              Plain(c, m)[i] == if c.NoCipher? then 0 else m.pads[8 - (Padded(len) - len) + i]
  {
    PlainParts(c, m);
    SealedIs(Plain(c, m));
    PaddedIs(LengthField(m));
    hide Sealed, Crc32.Crc, GetMsb, PutMsb, PaddingLength;
    var covered, n := Covered(c, m), PaddingLength(LengthField(m));
    assert Plain(c, m)[..|covered|] == covered;
    assert covered[n..] == [m.kind] + m.body;
  }

  // ---------- when a frame is taken ----------

  /** The length field is in bounds and the whole frame has arrived. */
  predicate Arrived(input: seq<byte>) {
    && |input| >= 4 + 8 && 5 <= Field(input) <= 262144 && |input| >= 4 + Padded(Field(input))
  }

  /** The octets of the frame at the head of the input, behind its length field. */
  function Sent(input: seq<byte>): (s: seq<byte>)
    requires Arrived(input)
    ensures |s| % 8 == 0 && Field(input) < |s| == Padded(Field(input)) <= Field(input) + 8
  {
    input[4..4 + Padded(Field(input))]
  }

  /** The attack detector finds an attack; it is told the vector of IDEA only. */
  ghost predicate Attacked(c: Context, s: seq<byte>)
    requires |s| % 8 == 0 && |s| <= 262144
  {
    Deattack.Attack(s, if c.IdeaCipher? then Deattack.Vector(BytesMsb(c.iv)) else Deattack.NoVector)
  }

  /** packet_decrypt turns the frame away. */
  ghost predicate Refuses(c: Context, s: seq<byte>)
    requires |s| % 8 == 0
  {
    !c.NoCipher? && (|s| > 262144 || Attacked(c, s))
  }

  lemma HeaderIs(input: seq<byte>)
    ensures HeaderOf(input) ==
            if |input| < 12 then Partial
            else if !(5 <= Field(input) <= 262144) then BadField
            else if |input| < 4 + Padded(Field(input)) then Partial else Whole(Field(input))
  {
    if |input| >= 12 {
      FieldIs(input);
      PaddedIs(Field(input));
      hide GetInt, Field, Padded, PaddingLength;
    }
  }

  /**
   For every receiver: nothing is taken before the frame has arrived; and then the frame is taken
   if and only if no data is left over, the detector lets it pass, and the decrypted octets end in
   the CRC of those before them.  Taken are the type and the data between padding and check octets.
   */
  lemma TakesExactly(r: Receiver)
    ensures TakePacket(r).Incomplete? <==>
            |r.input| < 12 || (5 <= Field(r.input) <= 262144 && |r.input| < 4 + Padded(Field(r.input)))
    ensures TakePacket(r) == Failed(BadLength) <==> |r.input| >= 12 && !(5 <= Field(r.input) <= 262144)
    ensures Arrived(r.input) ==>
              var s, len := Sent(r.input), Field(r.input);
              var plain := Decrypt(r.context, s);
              var n := |s|;
              && (TakePacket(r).Taken? <==> r.incoming == [] && !Refuses(r.context, s) && Sealed(plain.data))
              && (TakePacket(r).Taken? ==>
                    TakePacket(r) == Taken(plain.data[n - len], Receiver(plain.after, r.input[4 + n..],
                                           plain.data[n - len + 1..n - 4])))
              && (TakePacket(r) == Failed(JunkLeft) <==> r.incoming != [])
              && (TakePacket(r) == Failed(TooLong) <==> r.incoming == [] && !r.context.NoCipher? && n > 262144)
              && (TakePacket(r) == Failed(Packets.Attacked) <==>
                    r.incoming == [] && !r.context.NoCipher? && n <= 262144 && Attacked(r.context, s))
              && (TakePacket(r) == Failed(BadChecksum) <==>
                    r.incoming == [] && !Refuses(r.context, s) && !Sealed(plain.data))
  {
    hide HeaderOf, Open, Decrypt, Sealed, Padded, PaddingLength, Field, Refuses, Attacked;
    HeaderIs(r.input);
    if Arrived(r.input) {
      var s, len := Sent(r.input), Field(r.input);
      PaddedIs(len);
      OpensExactly(r.context, len, s);
      assert r.input[4..4 + |s|] == s;
    }
  }

  lemma OpensExactly(c: Context, len: nat, s: seq<byte>)
    requires 5 <= len && |s| == len + PaddingLength(len) == Padded(len) && |s| % 8 == 0
    ensures Takes(c, |s|)
    ensures var plain, n := Decrypt(c, s), |s|;
            && (Open(c, len, s).Opened? <==> !Refuses(c, s) && Sealed(plain.data))
            && (Open(c, len, s) == Refused(BadChecksum) <==> !Refuses(c, s) && !Sealed(plain.data))
            && Open(c, len, s) != Refused(JunkLeft) && Open(c, len, s) != Refused(BadLength)
            && (Open(c, len, s) == Refused(TooLong) <==> !c.NoCipher? && n > 262144)
            && (Open(c, len, s) == Refused(Packets.Attacked) <==> !c.NoCipher? && n <= 262144 && Attacked(c, s))
            && (Open(c, len, s).Opened? ==>
                  Open(c, len, s) == Opened(plain.data[n - len], plain.data[n - len + 1..n - 4], plain.after))
  {
    hide Decrypt, Sealed, Crc32.Crc, GetMsb, Deattack.Attack, Padded, PaddingLength;
    PaddedIsWhole(len);
    var plain := Decrypt(c, s).data;
    SealedIs(plain);
    var payload := plain[..|s| - 4][PaddingLength(len)..];
    assert payload[0] == plain[|s| - len] && payload[1..] == plain[|s| - len + 1..|s| - 4];
  }

  /** A string with its length at the head of s. */
  predicate StringAhead(s: seq<byte>) { |s| >= 4 && Field(s) <= 262144 && 4 + Field(s) <= |s| }

  /**
   What a poll does with the packet it takes: it stops at a disconnect message, passes over ignore
   and debug messages and the string in them, and returns any other packet.
   */
  lemma PollsExactly(r: Receiver)
    ensures TakePacket(r).Incomplete? ==> ReadPoll(r) == Poll(NoPacket, r)
    ensures TakePacket(r).Failed? ==> ReadPoll(r).outcome == Stopped(TakePacket(r).why)
    ensures TakePacket(r).Taken? ==>
              var t := TakePacket(r);
              && (t.kind == 1 ==> ReadPoll(r).outcome == Stopped(Disconnected))
              && (t.kind in {32, 36} && !StringAhead(t.after.incoming) ==> ReadPoll(r).outcome == Stopped(BadString))
              && (t.kind in {32, 36} && StringAhead(t.after.incoming) ==>
                    ReadPoll(r) ==
                    ReadPoll(t.after.(incoming := t.after.incoming[4 + Field(t.after.incoming)..])))
              && (t.kind !in {1, 32, 36} ==> ReadPoll(r) == Poll(Received(t.kind), t.after))
  {
    hide TakePacket, GetInt, Field;
    if TakePacket(r).Taken? {
      var s := TakePacket(r).after.incoming;
      if |s| >= 4 { FieldIs(s); }
    }
  }

  /** A whole frame that passes the detector, and whose decrypted octets lack their CRC, is at the head. */
  ghost predicate Corrupted(r: Receiver) {
    && Arrived(r.input) && r.incoming == [] && !Refuses(r.context, Sent(r.input))
    && !Sealed(Decrypt(r.context, Sent(r.input)).data)
  }

  lemma CorruptedStops(r: Receiver)
    requires Corrupted(r)
    ensures ReadPoll(r).outcome == Stopped(BadChecksum)
  {
    hide TakePacket, ReadPoll, Decrypt, Sealed, Refuses;
    TakesExactly(r);
    PollsExactly(r);
  }

  // ---------- altered frames ----------

  lemma {:induction false} StreamXor(c: Arcfour.Stream, s: seq<byte>, e: seq<byte>)
    requires |s| == |e|
    ensures Arcfour.Encrypt(c, Crc32.XorBytes(s, e)).data == Crc32.XorBytes(Arcfour.Encrypt(c, s).data, e)
    decreases |s|
  {
    hide Arcfour.Key, Arcfour.XorByte, Arcfour.Advance;
    if s != [] {
      var d := Arcfour.Advance(c);
      var x, rest := Crc32.XorBytes(s, e), Arcfour.Encrypt(d, s[1..]).data;
      assert x[1..] == Crc32.XorBytes(s[1..], e[1..]);
      StreamXor(d, s[1..], e[1..]);
      var k := Arcfour.Key(d);
      OctetXor(s[0], e[0], k);
      XorBytesCons(Arcfour.XorByte(s[0], k), rest, e);
    }
  }

  lemma XorBytesCons(a: byte, s: seq<byte>, e: seq<byte>)
    requires |e| == |s| + 1
    ensures Crc32.XorBytes([a] + s, e) == [a ^ e[0]] + Crc32.XorBytes(s, e[1..])
  {
  }

  lemma OctetXor(a: byte, e: byte, k: byte)
    ensures Arcfour.XorByte(a ^ e, k) == Arcfour.XorByte(a, k) ^ e
  {
  }

  /** Without a cipher, and under Arcfour, an alteration of the frame is one of the packet. */
  lemma DecryptXor(c: Context, s: seq<byte>, e: seq<byte>)
    requires (c.NoCipher? || c.ArcfourCipher?) && |s| == |e|
    ensures Decrypt(c, Crc32.XorBytes(s, e)).data == Crc32.XorBytes(Decrypt(c, s).data, e)
  {
    if c.ArcfourCipher? { StreamXor(c.stream, s, e); }
    hide Arcfour.Encrypt;
  }

  /** A frame with the pattern w laid over four octets from place p behind the length field on. */
  function Altered(f: seq<byte>, p: nat, w: seq<byte>): seq<byte>
    requires |f| >= 4 && |w| == 4 && p + 4 <= |f| - 4
  {
    f[..4] + Crc32.XorBytes(f[4..], Burst(|f| - 4, p, w))
  }

  /**
   A frame without a cipher or under Arcfour that was altered within four consecutive octets behind
   the length field, and that the detector lets pass, is refused for its check octets, but for one
   alteration: 61 d8 f4 ee over the last two octets of data and the first two check octets.
   */
  lemma AlteredIsRefused(c: Context, m: Message, p: nat, w: seq<byte>, t: seq<byte>)
    requires Sendable(m) && (c.NoCipher? || c.ArcfourCipher?)
    requires |w| == 4 && w != [0, 0, 0, 0] && p + 4 <= |Frame(c, m).data| - 4
    requires var a := Altered(Frame(c, m).data, p, w); |a[4..]| % 8 == 0 ==> !Refuses(c, a[4..])
    ensures var n, r := |Frame(c, m).data| - 4, Receiver(c, Altered(Frame(c, m).data, p, w) + t, []);
            && (TakePacket(r) == Failed(BadChecksum) <==> !(p + 6 == n && w == [0x61, 0xd8, 0xf4, 0xee]))
            && (TakePacket(r).Taken? <==> p + 6 == n && w == [0x61, 0xd8, 0xf4, 0xee])
            && (!(p + 6 == n && w == [0x61, 0xd8, 0xf4, 0xee]) ==> ReadPoll(r).outcome == Stopped(BadChecksum))
  {
    hide Encrypt, Decrypt, Plain, Sealed, Burst, Refuses, TakePacket, ReadPoll, Field, Padded, Frame;
    var f, n := Frame(c, m).data, |Frame(c, m).data| - 4;
    FrameLayout(c, m);
    var plain, cipher := Plain(c, m), Encrypt(c, Plain(c, m)).data;
    var e := Burst(n, p, w);
    assert f[4..] == cipher;
    DecryptInverse(c, plain);
    DecryptXor(c, cipher, e);
    AlteredSeal(plain, p, w);
    var a := Altered(f, p, w);
    AlteredHead(f, p, w, t);
    var r := Receiver(c, a + t, []);
    TakesExactly(r);
    PollsExactly(r);
  }

  /** Such an alteration: a packet of type 14 without data is read as one of type 0xd6. */
  lemma AlterationNotSeen(pads: seq<byte>)
    requires |pads| == 8
    ensures |Frame(NoCipher, Message(14, [], pads)).data| == 12
    ensures var f := Altered(Frame(NoCipher, Message(14, [], pads)).data, 2, [0x61, 0xd8, 0xf4, 0xee]);
            var t := TakePacket(Receiver(NoCipher, f, []));
            t.Taken? && t.kind == 0xd6 && t.after.incoming == []
  {
    hide Plain, Sealed, Burst, TakePacket, Field, Padded, Frame;
    var m, w := Message(14, [], pads), [0x61 as byte, 0xd8, 0xf4, 0xee];
    FrameLayout(NoCipher, m);
    assert Padded(5) == 8;
    AlteredIsRefused(NoCipher, m, 2, w, []);
    var f, plain := Frame(NoCipher, m).data, Plain(NoCipher, m);
    var a := Altered(f, 2, w);
    assert a + [] == a && f[4..] == plain;
    AlteredHead(f, 2, w, []);
    TakesExactly(Receiver(NoCipher, a, []));
    BurstAt(8, 2, w);
    assert plain[3] == 14 && 14 ^ 0xd8 == 0xd6 as byte;
  }

  lemma BurstAt(n: nat, p: nat, w: seq<byte>)
    requires |w| == 4 && p + 4 <= n
    ensures Burst(n, p, w)[p + 1] == w[1]
  {
  }

  lemma AlteredHead(f: seq<byte>, p: nat, w: seq<byte>, t: seq<byte>)
    requires |f| >= 12 && |w| == 4 && p + 4 <= |f| - 4
    requires 5 <= Field(f) <= 262144 && |f| == 4 + Padded(Field(f))
    ensures var a := Altered(f, p, w) + t;
            Arrived(a) && Field(a) == Field(f) && Sent(a) == Crc32.XorBytes(f[4..], Burst(|f| - 4, p, w))
            && Altered(f, p, w)[4..] == Sent(a)
  {
    hide Burst, Padded;
    var a := Altered(f, p, w) + t;
    assert a[..4] == f[..4];
    assert a[0] == f[..4][0] && a[1] == f[..4][1] && a[2] == f[..4][2] && a[3] == f[..4][3];
  }
}
