/**
 The two directions of packet.c on their buffers: the writer with outgoing_packet, output and
 send_context, and the reader with input, incoming_packet, receive_context and the detector.
 */
module PacketStreams {
  import opened Bytes
  import opened MachineWords
  import opened Options
  import opened Modes
  import opened Ciphers
  import opened CipherContexts
  import opened Buffers
  import opened Bufaux
  import opened Packets
  import Crc32
  import PacketChecks
  import Deattack

  /** What packet_start leaves in outgoing_packet, and the values put behind it. */
  function Outgoing(kind: byte, body: seq<byte>): seq<byte> {
    seq(8, _ => 0) + [kind] + body
  }

  lemma OutgoingLength(kind: byte, body: seq<byte>)
    ensures |Outgoing(kind, body)| == 9 + |body|
  {
  }

  lemma SizeCheck(m: Message)
    requires |m.pads| == 8
    ensures var n := |Outgoing(m.kind, m.body)|;
            && (Sendable(m) <==> n < MAX_PACKET_SIZE - 30) && n + 4 - 8 == LengthField(m)
  {
  }

  /** The packet with its padding in place, once the unused part is consumed. */
  lemma CoveredIs(c: Context, m: Message, q: seq<byte>, r: seq<byte>)
    requires Sendable(m) && q == Outgoing(m.kind, m.body)
    requires var n := PaddingLength(LengthField(m));
             r == if c.NoCipher? then q else q[..8 - n] + m.pads[8 - n..] + q[8..]
    ensures |r| >= 8 && r[8 - PaddingLength(LengthField(m))..] == Covered(c, m)
  {
    hide LengthField, PaddingLength;
    var n := PaddingLength(LengthField(m));
    assert seq(8, _ => 0 as byte) == seq(8 - n, _ => 0) + seq(n, _ => 0);
    Cut3(seq(8 - n, _ => 0), seq(n, _ => 0), [m.kind], m.body);
    Cut3(q[..8 - n], m.pads[8 - n..], [m.kind], m.body);
    assert q[8..] == [m.kind] + m.body;
  }

  lemma Cut3(a: seq<byte>, b: seq<byte>, c: seq<byte>, d: seq<byte>)
    ensures (a + b + c + d)[|a|..] == b + c + d && (a + b + (c + d))[|a|..] == b + c + d
  {
  }

  lemma PlainIs(c: Context, m: Message)
    requires Sendable(m)
    ensures Plain(c, m) == Covered(c, m) + PutMsb(Crc32.Crc(0, Covered(c, m)))
    ensures |Plain(c, m)| % 8 == 0
  {
  }

  lemma FrameIs(c: Context, m: Message)
    requires Sendable(m)
    ensures LengthField(m) < 0x1_0000_0000 && |Plain(c, m)| % 8 == 0 && Takes(c, |Plain(c, m)|)
    ensures var r := Encrypt(c, Plain(c, m)); Frame(c, m) == Output(PutInt(LengthField(m)) + r.data, r.after)
  {
    hide Encrypt, Plain, PutInt;
  }

  lemma PaddingFilled(now: seq<byte>, was: seq<byte>, pads: seq<byte>, at: nat, end: nat, padding: nat)
    requires |now| == |was| && |pads| == 8 && padding <= 8 && at + 8 <= end <= |was|
    requires forall k :: at + 8 - padding <= k < at + 8 ==> now[k] == pads[k - at]
    requires forall k :: 0 <= k < at + 8 - padding || at + 8 <= k < |was| ==> now[k] == was[k]
    ensures now[at..end] == was[at..end][..8 - padding] + pads[8 - padding..] + was[at..end][8..]
  {
  }

  method FromSeq(s: seq<byte>) returns (a: array<byte>)
    ensures fresh(a) && a[..] == s
  {
    a := new byte[|s|](i requires 0 <= i < |s| => s[i]);
  }

  lemma KindNow(context: CipherContext)
    requires context.Valid()
    ensures context.kind.NoCipher? <==> context.Value().NoCipher?
  {
  }

  lemma WholeBlocks(c: Context, n: nat)
    requires n % 8 == 0
    ensures Takes(c, n)
  {
  }

  class PacketWriter {
    const outgoing: Buffer
    const output: Buffer
    var context: CipherContext

    ghost predicate Valid()
      reads this, outgoing, output
    {
      && outgoing != output && outgoing.buf != output.buf
      && outgoing.Valid() && output.Valid() && context.Valid()
      && outgoing.buf !in context.Repr() && output.buf !in context.Repr()
      && outgoing !in context.Repr() && output !in context.Repr() && this !in context.Repr()
    }

    constructor (c: CipherContext)
      requires c.Valid()
      ensures Valid() && context == c && output.Contents() == [] && outgoing.Contents() == []
      ensures fresh(outgoing) && fresh(output) && fresh(outgoing.buf) && fresh(output.buf)
    {
      outgoing := new Buffer();
      output := new Buffer();
      context := c;
    }

    /** packet_start */
    method Start(kind: byte)
      requires Valid()
      modifies outgoing, outgoing.buf
      ensures Valid() && (outgoing.buf == old(outgoing.buf) || fresh(outgoing.buf))
      ensures outgoing.Contents() == Outgoing(kind, [])
      ensures output.Contents() == old(output.Contents()) && context.Value() == old(context.Value())
    {
      outgoing.Clear();
      outgoing.Append(Outgoing(kind, []));
    }

    /** packet_put_char and its companions. */
    method Put(item: Item)
      requires Valid() && Fits(item)
      modifies outgoing, outgoing.buf
      ensures Valid() && (outgoing.buf == old(outgoing.buf) || fresh(outgoing.buf))
      ensures outgoing.Contents() == old(outgoing.Contents()) + Bufaux.Put(item)
      ensures output.Contents() == old(output.Contents()) && context.Value() == old(context.Value())
    {
      hide Bufaux.Put, Fits;
      PutItem(outgoing, item);
    }

    /** packet_send; pads are the octets the random source will supply. */
    method Send(pads: seq<byte>, ghost kind: byte, ghost body: seq<byte>) returns (ok: bool)
      requires Valid() && |pads| == 8 && outgoing.Contents() == Outgoing(kind, body)
      modifies outgoing, outgoing.buf, output, output.buf, context.Repr()
      ensures ok <==> Sendable(Message(kind, body, pads))
      ensures ok <==> 8 + 1 + |body| < 255970
      ensures ok ==> Valid() && outgoing.Contents() == []
      ensures ok ==> var f := Frame(old(context.Value()), Message(kind, body, pads));
                     output.Contents() == old(output.Contents()) + f.data && context.Value() == f.after
    {
      hide Buffer.Contents, CipherContext.Value, Plain, Encrypt, PutInt, PutMsb;
      SizeCheck(Message(kind, body, pads));
      var n := outgoing.Len();
      if n >= MAX_PACKET_SIZE - 30 {
        return false;
      }
      Transmit(pads, n + 4 - 8, kind, body);
      ok := true;
    }

    method Transmit(pads: seq<byte>, len: nat, ghost kind: byte, ghost body: seq<byte>)
      requires Valid() && |pads| == 8 && outgoing.Contents() == Outgoing(kind, body)
      requires Sendable(Message(kind, body, pads)) && len == LengthField(Message(kind, body, pads))
      modifies outgoing, outgoing.buf, output, output.buf, context.Repr()
      ensures Valid() && outgoing.Contents() == []
      ensures var f := Frame(old(context.Value()), Message(kind, body, pads));
              output.Contents() == old(output.Contents()) + f.data && context.Value() == f.after
    {
      FrameIs(context.Value(), Message(kind, body, pads));
      Complete(pads, len, kind, body);
      Emit(len);
    }

    /** The padding in front of the packet type, and nothing in front of that. */
    method PadFront(pads: seq<byte>, len: nat, ghost kind: byte, ghost body: seq<byte>)
      requires Valid() && |pads| == 8 && outgoing.Contents() == Outgoing(kind, body)
      requires Sendable(Message(kind, body, pads)) && len == LengthField(Message(kind, body, pads))
      modifies outgoing, outgoing.buf
      ensures Valid() && outgoing.buf == old(outgoing.buf)
      ensures outgoing.Contents() == Covered(context.Value(), Message(kind, body, pads))
      ensures output.Contents() == old(output.Contents()) && context.Value() == old(context.Value())
    {
      hide Buffer.Contents, CipherContext.Value, Covered;
      ghost var q := outgoing.Contents();
      var padding := PaddingLength(len);
      OutgoingLength(kind, body);
      KindNow(context);
      if !context.kind.NoCipher? {
        Pad(pads, padding);
      }
      CoveredIs(context.Value(), Message(kind, body, pads), q, outgoing.Contents());
      var done := outgoing.Consume(8 - padding);
    }

    /** Padding and check octets: the packet as it will be encrypted. */
    method Complete(pads: seq<byte>, len: nat, ghost kind: byte, ghost body: seq<byte>)
      requires Valid() && |pads| == 8 && outgoing.Contents() == Outgoing(kind, body)
      requires Sendable(Message(kind, body, pads)) && len == LengthField(Message(kind, body, pads))
      modifies outgoing, outgoing.buf
      ensures Valid() && (outgoing.buf == old(outgoing.buf) || fresh(outgoing.buf))
      ensures outgoing.Contents() == Plain(context.Value(), Message(kind, body, pads))
      ensures output.Contents() == old(output.Contents()) && context.Value() == old(context.Value())
    {
      hide Buffer.Contents, Plain;
      PadFront(pads, len, kind, body);
      PlainIs(context.Value(), Message(kind, body, pads));
      Checksum();
    }

    /** The length field and the encrypted packet behind what waits to be written. */
    method Emit(len: nat)
      requires Valid() && len < 0x1_0000_0000 && |outgoing.Contents()| % 8 == 0
      modifies outgoing, output, output.buf, context.Repr()
      ensures Valid() && outgoing.Contents() == []
      ensures var r := old(Encrypt(context.Value(), outgoing.Contents()));
              output.Contents() == old(output.Contents()) + (PutInt(len) + r.data) && context.Value() == r.after
    {
      hide Buffer.Contents, CipherContext.Valid, CipherContext.Value, Outgoing, PaddingLength, LengthField, Sendable,
          Plain, Covered, Frame, Encrypt, Takes, PutInt, PutMsb;
      ghost var q := output.Contents();
      output.Append(PutInt(len));
      var plain := outgoing.Contents();
      WholeBlocks(context.Value(), |plain|);
      var data := EncryptCopy(plain);
      output.Append(data);
      outgoing.Clear();
      assert q + PutInt(len) + data == q + (PutInt(len) + data);
    }

    /** packet_encrypt, on a copy of the packet. */
    method EncryptCopy(plain: seq<byte>) returns (data: seq<byte>)
      requires Valid() && Takes(context.Value(), |plain|)
      modifies context.Repr()
      ensures Valid() && output.Contents() == old(output.Contents()) && outgoing.Contents() == old(outgoing.Contents())
      ensures Output(data, context.Value()) == old(Encrypt(context.Value(), plain))
    {
      var src := FromSeq(plain);
      var dest := new byte[src.Length];
      context.EncryptBuffer(dest, src);
      data := dest[..];
    }

    /** Random padding in front of the packet type. */
    method Pad(pads: seq<byte>, padding: nat)
      requires Valid() && |pads| == 8 && padding <= 8 <= |outgoing.Contents()|
      modifies outgoing.buf
      ensures Valid() && outgoing.buf == old(outgoing.buf) && outgoing.offset == old(outgoing.offset) &&
          outgoing.end == old(outgoing.end)
      ensures outgoing.Contents() == old(outgoing.Contents())[..8 - padding] + pads[8 - padding..] +
          old(outgoing.Contents())[8..]
    {
      var at := outgoing.offset;
      var i := 0;
      while i < padding
        invariant i <= padding
        invariant forall k {:trigger outgoing.buf[k]} :: at + 8 - i <= k < at + 8 ==> outgoing.buf[k] == pads[k - at]
        invariant forall k {:trigger outgoing.buf[k]} :: 0 <= k < at + 8 - i || at + 8 <= k < outgoing.buf.Length ==>
            outgoing.buf[k] == old(outgoing.buf[k])
      {
        outgoing.buf[at + 7 - i] := pads[7 - i];
        i := i + 1;
      }
      PaddingFilled(outgoing.buf[..], old(outgoing.buf[..]), pads, at, outgoing.end, padding);
    }

    /** Check octets behind the packet. */
    method Checksum()
      requires Valid()
      modifies outgoing, outgoing.buf
      ensures Valid() && (outgoing.buf == old(outgoing.buf) || fresh(outgoing.buf))
      ensures outgoing.Contents() == old(outgoing.Contents()) + PutMsb(Crc32.Crc(0, old(outgoing.Contents())))
    {
      var sum := Crc32.Crc32(outgoing.Contents());
      outgoing.Append(PutMsb(sum));
    }
  }

  /** What one turn of packet_read_poll comes to. */
  datatype Turn = TurnIncomplete | TurnFailed(why: Reason) | TurnTaken(kind: byte)

  /** The verdict on a decrypted frame. */
  function Stripped(plain: seq<byte>, len: nat): (t: Turn)
    requires 5 <= len && |plain| == len + PaddingLength(len)
    ensures !t.TurnIncomplete?
  {
    if Crc32.Crc(0, plain[..|plain| - 4]) != GetMsb(plain[|plain| - 4..]) then TurnFailed(BadChecksum)
    else TurnTaken(plain[PaddingLength(len)])
  }

  /** The data of a packet: without padding, check octets and packet type. */
  function BodyOf(plain: seq<byte>, len: nat): seq<byte>
    requires 5 <= len && |plain| == len + PaddingLength(len)
  {
    plain[PaddingLength(len)..|plain| - 4][1..]
  }

  lemma BodyIs(plain: seq<byte>, len: nat)
    requires 5 <= len && |plain| == len + PaddingLength(len)
    ensures var payload := plain[PaddingLength(len)..|plain| - 4];
            BodyOf(plain, len) == payload[1..] && payload[0] == plain[PaddingLength(len)]
  {
  }

  /** The octets are too many for the detector, or it finds an attack in them. */
  ghost predicate TurnedAway(c: Context, s: seq<byte>)
    requires |s| % 8 == 0
  {
    if |s| > MAX_LENGTH then !c.NoCipher? else Detected(c, s)
  }

  lemma OpenIs(c: Context, len: nat, s: seq<byte>)
    requires 5 <= len && |s| == len + PaddingLength(len) && |s| % 8 == 0
    ensures TurnedAway(c, s) ==> Open(c, len, s) == Refused(if |s| > MAX_LENGTH then TooLong else Attacked)
    ensures !TurnedAway(c, s) ==>
            var plain := Decrypt(c, s);
            Open(c, len, s) == match Stripped(plain.data, len)
                               case TurnFailed(why) => Refused(why)
                               case TurnTaken(kind) => Opened(kind, BodyOf(plain.data, len), plain.after)
                               case TurnIncomplete => Refused(BadChecksum)
  {
    hide Detected, Decrypt, PaddingLength, GetMsb, Crc32.Crc;
    if !TurnedAway(c, s) {
      var plain := Decrypt(c, s).data;
      var payload := plain[..|s| - 4][PaddingLength(len)..];
      assert payload == plain[PaddingLength(len)..|s| - 4];
      assert payload[0] == plain[PaddingLength(len)];
    }
  }

  class PacketReader {
    const input: Buffer
    const incoming: Buffer
    var context: CipherContext
    const detector: Deattack.Detector

    ghost predicate Valid()
      reads this, input, incoming, detector
    {
      && input != incoming && input.buf != incoming.buf
      && input.Valid() && incoming.Valid() && context.Valid() && detector.Valid()
      && context.Repr() !! {this, input, incoming, input.buf, incoming.buf, detector}
      && (detector.h != null ==> detector.h as object !in context.Repr() + {input.buf, incoming.buf})
    }

    /** The reader as a value. */
    ghost function State(): Receiver
      requires Valid()
      reads this, input, incoming, input.buf, incoming.buf, detector, context.Repr()
    {
      Receiver(context.Value(), input.Contents(), incoming.Contents())
    }

    constructor (c: CipherContext)
      requires c.Valid()
      ensures Valid() && context == c && State() == Receiver(c.Value(), [], [])
      ensures fresh(input) && fresh(incoming) && fresh(input.buf) && fresh(incoming.buf) && fresh(detector)
    {
      input := new Buffer();
      incoming := new Buffer();
      detector := new Deattack.Detector();
      context := c;
    }

    /** packet_process_incoming */
    method ProcessIncoming(data: seq<byte>)
      requires Valid()
      modifies input, input.buf
      ensures Valid() && (input.buf == old(input.buf) || fresh(input.buf))
      ensures State() == old(State()).(input := old(State()).input + data)
    {
      input.Append(data);
    }

    /** The vector shown to the detector. */
    method VectorNow() returns (iv: Deattack.Vector)
      requires Valid()
      ensures iv == VectorOf(context.Value())
    {
      hide BytesMsb, BlockMsb;
      iv := Deattack.NoVector;
      if context.kind.IdeaCipher? {
        var octets := context.iv1[..];
        BlockRoundTrips(Block(0, 0), octets);
        assert octets[..8] == octets;
        iv := Deattack.Vector(octets);
      }
    }

    /** The detector's part of packet_decrypt. */
    method Ask(s: seq<byte>) returns (detected: bool)
      requires Valid() && Deattack.Acceptable(s)
      modifies detector, detector.h
      ensures Valid() && State() == old(State())
      ensures detector.h == old(detector.h) || fresh(detector.h)
      ensures detected <==> Detected(context.Value(), s)
    {
      hide CipherContext.Value, VectorOf;
      KindNow(context);
      var iv := VectorNow();
      detected := false;
      if !context.kind.NoCipher? {
        detected := detector.DetectAttack(s, iv);
      }
    }

    /** packet_decrypt, on a copy of the octets. */
    method DecryptCopy(s: seq<byte>) returns (data: seq<byte>)
      requires Valid() && Takes(context.Value(), |s|)
      modifies context.Repr()
      ensures Valid() && input.Contents() == old(input.Contents()) && incoming.Contents() == old(incoming.Contents())
      ensures Output(data, context.Value()) == old(Decrypt(context.Value(), s))
    {
      var src := FromSeq(s);
      var dest := new byte[src.Length];
      context.DecryptBuffer(dest, src);
      data := dest[..];
    }

    /** The octets of one frame behind its length field: decryption, padding, check octets, packet type. */
    method OpenFrame(len: nat) returns (t: Turn)
      requires Valid() && 5 <= len && len + PaddingLength(len) <= |input.Contents()| && incoming.Contents() == []
      modifies input, incoming, incoming.buf, context.Repr(), detector, detector.h
      ensures Valid() && (incoming.buf == old(incoming.buf) || fresh(incoming.buf)) && input.buf == old(input.buf)
      ensures detector.h == old(detector.h) || fresh(detector.h)
      ensures var n := len + PaddingLength(len);
              match old(Open(context.Value(), len, input.Contents()[..n]))
              case Refused(why) => t == TurnFailed(why)
              case Opened(kind, body, after) =>
                t == TurnTaken(kind) && State() == Receiver(after, old(input.Contents())[n..], body)
    {
      PaddedIsWhole(len);
      hide Open, Decrypt, Takes;
      ghost var q, c := input.Contents(), context.Value();
      var n := len + PaddingLength(len);
      var s := input.Contents()[..n];
      OpenIs(c, len, s);
      var refused := TurnAway(s);
      if refused {
        return TurnFailed(if n > MAX_LENGTH then TooLong else Attacked);
      }
      MoveIn(n);
      t := CheckAndStrip(len);
    }

    /** The decrypted octets go to incoming_packet. */
    method MoveIn(n: nat)
      requires Valid() && n % 8 == 0 && n <= |input.Contents()| && incoming.Contents() == []
      modifies input, incoming, incoming.buf, context.Repr()
      ensures Valid() && (incoming.buf == old(incoming.buf) || fresh(incoming.buf)) && input.buf == old(input.buf)
      ensures Takes(old(context.Value()), n)
      ensures var r := old(Decrypt(context.Value(), input.Contents()[..n]));
              State() == Receiver(r.after, old(input.Contents())[n..], r.data)
    {
      hide CipherContext.Valid, CipherContext.Value, Decrypt;
      WholeBlocks(context.Value(), n);
      var data := DecryptCopy(input.Contents()[..n]);
      incoming.Append(data);
      assert [] + data == data;
      var consumed := input.Consume(n);
    }

    /** The questions asked before a frame is decrypted. */
    method TurnAway(s: seq<byte>) returns (refused: bool)
      requires Valid() && |s| % 8 == 0
      modifies detector, detector.h
      ensures Valid() && State() == old(State())
      ensures detector.h == old(detector.h) || fresh(detector.h)
      ensures refused <==> TurnedAway(context.Value(), s)
    {
      assert MAX_LENGTH == Deattack.MAX_BLOCKS * Deattack.BLOCK_SIZE && |s| % Deattack.BLOCK_SIZE == 0;
      assert |s| <= MAX_LENGTH ==> Deattack.Acceptable(s);
      KindNow(context);
      if |s| > MAX_LENGTH {
        refused := !context.kind.NoCipher?;
      } else {
        refused := Ask(s);
      }
    }

    /** The checksum, the padding and the packet type of a decrypted frame in incoming_packet. */
    method CheckAndStrip(len: nat) returns (t: Turn)
      requires Valid() && 5 <= len && |incoming.Contents()| == len + PaddingLength(len)
      modifies incoming
      ensures Valid() && incoming.buf == old(incoming.buf)
      ensures input.Contents() == old(input.Contents()) && context.Value() == old(context.Value())
      ensures t == Stripped(old(incoming.Contents()), len)
      ensures t.TurnTaken? ==> incoming.Contents() == BodyOf(old(incoming.Contents()), len)
    {
      hide Buffer.Contents, CipherContext.Valid, CipherContext.Value, PaddingLength, Open, Decrypt, Encrypt, Takes,
          Detected, TurnedAway, GetMsb, GetInt, HeaderOf, Packets.ReadPoll, Deattack.Acceptable, Crc32.Crc,
          Crc32.BitwiseCrc;
      var n := incoming.Len();
      ghost var p := incoming.Contents();
      var checksum := Crc32.Crc32(incoming.Contents()[..n - 4]);
      var ok := incoming.Consume(PaddingLength(len));
      var stored := GetMsb(incoming.Contents()[len - 4..]);
      assert p[n - 4..] == incoming.Contents()[len - 4..];
      if checksum != stored {
        return TurnFailed(BadChecksum);
      }
      assert incoming.Contents()[..|incoming.Contents()| - 4] == p[PaddingLength(len)..n - 4];
      var kind := StripRest();
      BodyIs(p, len);
      t := TurnTaken(kind);
    }

    /** The check octets behind the payload and the packet type in front of it. */
    method StripRest() returns (kind: byte)
      requires Valid() && |incoming.Contents()| >= 5
      modifies incoming
      ensures Valid() && incoming.buf == old(incoming.buf)
      ensures input.Contents() == old(input.Contents()) && context.Value() == old(context.Value())
      ensures var payload := old(incoming.Contents()[..|incoming.Contents()| - 4]);
              kind == payload[0] && incoming.Contents() == payload[1..]
    {
      hide Buffer.Contents, CipherContext.Valid, CipherContext.Value;
      var ok := incoming.ConsumeEnd(4);
      ghost var payload := incoming.Contents();
      var got, data := incoming.Get(1);
      assert data + incoming.Contents() == payload;
      assert incoming.Contents() == payload[1..];
      kind := data[0];
    }

    /** One turn of packet_read_poll, up to the packet type. */
    method TakeOne() returns (t: Turn)
      requires Valid()
      modifies input, incoming, incoming.buf, context.Repr(), detector, detector.h
      ensures Valid() && (incoming.buf == old(incoming.buf) || fresh(incoming.buf)) && input.buf == old(input.buf)
      ensures detector.h == old(detector.h) || fresh(detector.h)
      ensures match old(TakePacket(State()))
              case Incomplete => t == TurnIncomplete && State() == old(State())
              case Failed(why) => t == TurnFailed(why)
              case Taken(kind, after) => t == TurnTaken(kind) && State() == after
    {
      hide Buffer.Contents, CipherContext.Valid, CipherContext.Value, Deattack.Acceptable;
      var header := ReadHeader();
      match header {
        case Partial => return TurnIncomplete;
        case BadField => return TurnFailed(BadLength);
        case Whole(len) => t := TakeWhole(len);
      }
    }

    /** The turn when all of a frame is there. */
    method TakeWhole(len: nat) returns (t: Turn)
      requires Valid() && HeaderOf(input.Contents()) == Whole(len)
      modifies input, incoming, incoming.buf, context.Repr(), detector, detector.h
      ensures Valid() && (incoming.buf == old(incoming.buf) || fresh(incoming.buf)) && input.buf == old(input.buf)
      ensures detector.h == old(detector.h) || fresh(detector.h)
      ensures match old(TakePacket(State()))
              case Incomplete => false
              case Failed(why) => t == TurnFailed(why)
              case Taken(kind, after) => t == TurnTaken(kind) && State() == after
    {
      hide Buffer.Contents, CipherContext.Valid, CipherContext.Value, PaddingLength, Open, Decrypt, Encrypt, Takes,
          Detected, TurnedAway, Stripped, BodyOf, GetMsb, GetInt, HeaderOf, Packets.ReadPoll, Deattack.Acceptable;
      ghost var q := input.Contents();
      var left := incoming.Len();
      if left != 0 {
        return TurnFailed(JunkLeft);
      }
      var end := 4 + len + PaddingLength(len);
      var ok := input.Consume(4);
      assert input.Contents()[..end - 4] == q[4..end] && input.Contents()[end - 4..] == q[end..];
      incoming.Clear();
      t := OpenFrame(len);
    }

    /** The length field, once the whole frame is there. */
    method ReadHeader() returns (h: Header)
      requires Valid()
      ensures h == HeaderOf(input.Contents())
    {
      hide GetInt, PaddingLength;
      var n := input.Len();
      if n < 4 + 8 {
        return Partial;
      }
      var len := GetInt(input.Contents());
      if len < 1 + 2 + 2 || len > MAX_LENGTH {
        return BadField;
      }
      if n < 4 + len + PaddingLength(len) {
        return Partial;
      }
      h := Whole(len);
    }

    /** packet_read_poll: the loop around the label restart. */
    method ReadPoll() returns (outcome: Outcome)
      requires Valid()
      modifies input, incoming, incoming.buf, context.Repr(), detector, detector.h
      ensures Valid() && outcome == old(Packets.ReadPoll(State())).outcome
      ensures !outcome.Stopped? ==> State() == old(Packets.ReadPoll(State())).after
      ensures old(PacketChecks.Corrupted(State())) ==> outcome == Stopped(BadChecksum)
    {
      hide Buffer.Contents, CipherContext.Valid, CipherContext.Value, PaddingLength, Open, Decrypt, Encrypt, Takes,
          Detected, TurnedAway, Stripped, BodyOf, GetMsb, GetInt, HeaderOf, Packets.ReadPoll, Deattack.Acceptable,
          PacketChecks.Corrupted;
      ghost var goal := Packets.ReadPoll(State());
      CorruptedPoll(State());
      while true
        invariant Valid() && Packets.ReadPoll(State()) == goal
        invariant incoming.buf == old(incoming.buf) || fresh(incoming.buf)
        invariant input.buf == old(input.buf) && context == old(context)
        invariant detector.h == old(detector.h) || fresh(detector.h)
        decreases |input.Contents()|
      {
        ghost var before := State();
        TurnShrinks(before);
        PollStep(before);
        var t := TakeOne();
        match t {
          case TurnIncomplete => return NoPacket;
          case TurnFailed(why) => return Stopped(why);
          case TurnTaken(kind) =>
            if kind == SSH_MSG_DISCONNECT {
              return Stopped(Disconnected);
            } else if kind == SSH_MSG_IGNORE || kind == SSH_MSG_DEBUG {
              var str := GetItem(incoming, StrKind);
              if str == None {
                return Stopped(BadString);
              }
            } else {
              return Received(kind);
            }
        }
      }
    }
  }

  lemma CorruptedPoll(r: Receiver)
    ensures PacketChecks.Corrupted(r) ==> Packets.ReadPoll(r).outcome == Stopped(BadChecksum)
  {
    hide PacketChecks.Corrupted, Packets.ReadPoll;
    if PacketChecks.Corrupted(r) { PacketChecks.CorruptedStops(r); }
  }

  /** A packet taken leaves less input. */
  lemma TurnShrinks(r: Receiver)
    ensures TakePacket(r).Taken? ==> |TakePacket(r).after.input| < |r.input|
  {
    hide Open, PaddingLength, HeaderOf;
  }

  /** What a poll makes of one turn. */
  lemma PollStep(r: Receiver)
    ensures match TakePacket(r)
            case Incomplete => Packets.ReadPoll(r) == Poll(NoPacket, r)
            case Failed(why) => Packets.ReadPoll(r).outcome == Stopped(why)
            case Taken(kind, after) =>
              if kind == SSH_MSG_DISCONNECT then Packets.ReadPoll(r).outcome == Stopped(Disconnected)
              else if kind == SSH_MSG_IGNORE || kind == SSH_MSG_DEBUG then
                match Get(StrKind, after.incoming)
                case None => Packets.ReadPoll(r).outcome == Stopped(BadString)
                case Some(g) => Packets.ReadPoll(r) == Packets.ReadPoll(after.(incoming := g.rest))
              else Packets.ReadPoll(r) == Poll(Received(kind), after)
  {
    hide TakePacket, Get;
  }
}
