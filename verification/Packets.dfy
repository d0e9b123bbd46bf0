/**
 The packet layer (packet.c): padded, checksummed and encrypted frames on a byte stream, and
 the reader that finds them again however the stream was cut.
 */
module Packets {
  import opened Bytes
  import opened MachineWords
  import opened Options
  import opened Modes
  import opened Ciphers
  import opened Bufaux
  import Crc32
  import Deattack

  const SSH_MSG_DISCONNECT: byte := 1
  const SSH_MSG_IGNORE: byte := 32
  const SSH_MSG_DEBUG: byte := 36

  const MAX_PACKET_SIZE := 256000
  const MAX_LENGTH := 256 * 1024

  /** A packet under construction: its type, its data and the octets the random source will supply. */
  datatype Message = Message(kind: byte, body: seq<byte>, pads: seq<byte>)

  /** packet_send stops the program when outgoing_packet, with its 8 leading octets, is too long. */
  predicate Sendable(m: Message) {
    8 + 1 + |m.body| < MAX_PACKET_SIZE - 30 && |m.pads| == 8
  }

  // ---------- sending ----------

  /** The length field: type, data and check octets, without the padding. */
  function LengthField(m: Message): nat { 1 + |m.body| + 4 }

  function PaddingLength(len: nat): (n: nat)
    ensures 1 <= n <= 8
  {
    8 - len % 8
  }

  lemma PaddedIsWhole(len: nat)
    ensures (len + PaddingLength(len)) % 8 == 0
  {
  }

  /** Zeros without a cipher, random octets with one. */
  function PaddingOf(c: Context, m: Message): (p: seq<byte>)
    requires Sendable(m)
    ensures |p| == PaddingLength(LengthField(m))
  {
    var n := PaddingLength(LengthField(m));
    if c.NoCipher? then seq(n, _ => 0) else m.pads[8 - n..]
  }

  /** What the checksum covers. */
  function Covered(c: Context, m: Message): seq<byte>
    requires Sendable(m)
  {
    PaddingOf(c, m) + [m.kind] + m.body
  }

  function Plain(c: Context, m: Message): (s: seq<byte>)
    requires Sendable(m)
    ensures |s| == LengthField(m) + PaddingLength(LengthField(m)) && |s| % 8 == 0
  {
    PaddedIsWhole(LengthField(m));
    Covered(c, m) + PutMsb(Crc32.Crc(0, Covered(c, m)))
  }

  /** packet_send: the octets appended to output. */
  function Frame(c: Context, m: Message): (f: Output<Context>)
    requires Sendable(m)
    ensures |f.data| == 4 + LengthField(m) + PaddingLength(LengthField(m))
  {
    var r := Encrypt(c, Plain(c, m));
    Output(PutInt(LengthField(m)) + r.data, r.after)
  }

  // ---------- receiving ----------

  /** receive_context, input and incoming_packet. */
  datatype Receiver = Receiver(context: Context, input: seq<byte>, incoming: seq<byte>)

  datatype Reason = BadLength | TooLong | JunkLeft | Attacked | BadChecksum | BadString | Disconnected

  datatype Taken =
    | Incomplete
    | Failed(why: Reason)
    | Taken(kind: byte, after: Receiver)

  /** The initialisation vector packet_decrypt shows to the detector. */
  function VectorOf(c: Context): Deattack.Vector {
    if c.IdeaCipher? then Deattack.Vector(BytesMsb(c.iv)) else Deattack.NoVector
  }

  /** What packet_decrypt asks the detector, which is not asked when there is no cipher. */
  ghost predicate Detected(c: Context, s: seq<byte>)
    requires Deattack.Acceptable(s)
  {
    !c.NoCipher? && Deattack.Attack(s, VectorOf(c))
  }

  datatype Opened =
    | Refused(why: Reason)
    | Opened(kind: byte, body: seq<byte>, after: Context)

  /** What packet_read_poll does with the octets of one frame behind the length field. */
  ghost function Open(c: Context, len: nat, s: seq<byte>): Opened
    requires 5 <= len && |s| == len + PaddingLength(len)
  {
    PaddedIsWhole(len);
    if |s| > MAX_LENGTH && !c.NoCipher? then Refused(TooLong) else
    if |s| <= MAX_LENGTH && Detected(c, s) then Refused(Attacked) else
    var plain := Decrypt(c, s);
    var covered := plain.data[..|s| - 4];
    if Crc32.Crc(0, covered) != GetMsb(plain.data[|s| - 4..]) then Refused(BadChecksum) else
    var payload := covered[PaddingLength(len)..];
    Opened(payload[0], payload[1..], plain.after)
  }

  datatype Header = Partial | BadField | Whole(len: nat)

  /** The length field of the next frame, when all of the frame has arrived. */
  function HeaderOf(input: seq<byte>): (h: Header)
    ensures h.Whole? ==> 5 <= h.len && 4 + h.len + PaddingLength(h.len) <= |input|
  {
    if |input| < 4 + 8 then Partial else
    var len := GetInt(input);
    if len < 1 + 2 + 2 || len > MAX_LENGTH then BadField else
    if |input| < 4 + len + PaddingLength(len) then Partial else Whole(len)
  }

  /** One turn of packet_read_poll, up to the packet type. */
  ghost function TakePacket(r: Receiver): Taken {
    match HeaderOf(r.input)
    case Partial => Incomplete
    case BadField => Failed(BadLength)
    case Whole(len) =>
      if |r.incoming| != 0 then Failed(JunkLeft) else
      var end := 4 + len + PaddingLength(len);
      match Open(r.context, len, r.input[4..end])
      case Refused(why) => Failed(why)
      case Opened(kind, body, after) => Taken(kind, Receiver(after, r.input[end..], body))
  }

  datatype Outcome =
    | NoPacket
    | Received(kind: byte)
    | Stopped(why: Reason)

  datatype Poll = Poll(outcome: Outcome, after: Receiver)

  /** packet_read_poll: the next packet that is neither IGNORE nor DEBUG. */
  ghost function ReadPoll(r: Receiver): Poll
    decreases |r.input|
  {
    match TakePacket(r)
    case Incomplete => Poll(NoPacket, r)
    case Failed(why) => Poll(Stopped(why), r)
    case Taken(kind, after) =>
      if kind == SSH_MSG_DISCONNECT then Poll(Stopped(Disconnected), after)
      else if kind == SSH_MSG_IGNORE || kind == SSH_MSG_DEBUG then
        match Get(StrKind, after.incoming)
        case None => Poll(Stopped(BadString), after)
        case Some(g) => ReadPoll(after.(incoming := g.rest))
      else Poll(Received(kind), after)
  }

  // ---------- one frame ----------

  lemma FrameFits(c: Context, m: Message)
    requires Sendable(m)
    ensures Takes(c, |Plain(c, m)|) && Deattack.Acceptable(Encrypt(c, Plain(c, m)).data)
    ensures 5 <= LengthField(m) <= MAX_LENGTH - 8
  {
    hide Encrypt;
  }

  /** The assumption the detector's answer rests on: it finds no attack in this frame. */
  ghost predicate Undetected(c: Context, m: Message)
    requires Sendable(m)
  {
    FrameFits(c, m);
    !Detected(c, Encrypt(c, Plain(c, m)).data)
  }

  /** A frame of at most seven blocks needs no such assumption. */
  lemma ShortIsUndetected(c: Context, m: Message)
    requires Sendable(m) && |m.body| <= 43
    ensures Undetected(c, m)
  {
    FrameFits(c, m);
    Deattack.ShortNeverAttack(Encrypt(c, Plain(c, m)).data, VectorOf(c));
    hide Encrypt, Deattack.Attack;
  }

  lemma ChecksumReads(w: word32)
    ensures GetMsb(PutMsb(w)) == w
  {
    WordRoundTrips(w, PutMsb(w));
  }

  /** Taking the clear text of a frame apart gives the message. */
  lemma PlainParts(c: Context, m: Message)
    requires Sendable(m)
    ensures var plain := Plain(c, m);
            var covered := plain[..|plain| - 4];
            && covered == Covered(c, m)
            && GetMsb(plain[|plain| - 4..]) == Crc32.Crc(0, covered)
            && covered[PaddingLength(LengthField(m))..] == [m.kind] + m.body
  {
    var covered := Covered(c, m);
    var check := PutMsb(Crc32.Crc(0, covered));
    ChecksumReads(Crc32.Crc(0, covered));
    hide PutMsb, GetMsb, Crc32.Crc, PaddingOf;
    var plain := Plain(c, m);
    assert plain[..|plain| - 4] == covered && plain[|plain| - 4..] == check;
    assert covered == PaddingOf(c, m) + ([m.kind] + m.body);
  }

  lemma OpenFrame(c: Context, m: Message)
    requires Sendable(m) && Undetected(c, m)
    ensures Open(c, LengthField(m), Encrypt(c, Plain(c, m)).data) ==
            Opened(m.kind, m.body, Encrypt(c, Plain(c, m)).after)
  {
    FrameFits(c, m);
    DecryptInverse(c, Plain(c, m));
    PlainParts(c, m);
    hide Encrypt, Decrypt, Takes, Crc32.Crc, GetMsb, Plain, Detected, Covered;
    assert ([m.kind] + m.body)[1..] == m.body;
  }

  lemma HeaderOfFrame(len: nat, rest: seq<byte>)
    requires 5 <= len <= MAX_LENGTH
    ensures HeaderOf(PutInt(len) + rest) ==
            if |rest| < len + PaddingLength(len) then Partial else Whole(len)
  {
    hide GetInt, PutInt, PaddingLength;
    GetPutInt(len);
    ShortHead(PutInt(len), rest);
    OneBlock(len);
  }

  lemma OneBlock(len: nat)
    requires len > 0
    ensures len + PaddingLength(len) >= 8
  {
  }

  lemma TakeWhole(c: Context, input: seq<byte>, len: nat, s: seq<byte>, t: seq<byte>)
    requires HeaderOf(input) == Whole(len) && |s| == len + PaddingLength(len)
    requires input[4..4 + |s|] == s && input[4 + |s|..] == t
    ensures Open(c, len, s).Opened? ==>
            var o := Open(c, len, s); TakePacket(Receiver(c, input, [])) == Taken(o.kind, Receiver(o.after, t, o.body))
  {
    hide Open, HeaderOf, PaddingLength;
  }

  /** A whole frame at the head of the input is taken, and the receiver is in step again. */
  lemma TakeFrame(c: Context, m: Message, t: seq<byte>)
    requires Sendable(m) && Undetected(c, m)
    ensures TakePacket(Receiver(c, Frame(c, m).data + t, [])) ==
            Taken(m.kind, Receiver(Frame(c, m).after, t, m.body))
  {
    hide Encrypt, Plain, Open, HeaderOf, LengthField, PaddingLength, TakePacket, PutInt, Takes, Undetected, Sendable;
    FrameFits(c, m);
    var len := LengthField(m);
    var cipher := Encrypt(c, Plain(c, m)).data;
    OpenFrame(c, m);
    HeaderOfFrame(len, cipher + t);
    var head := PutInt(len);
    FrameSlices(head, cipher, t);
    TakeWhole(c, head + cipher + t, len, cipher, t);
  }

  lemma FrameSlices(head: seq<byte>, s: seq<byte>, t: seq<byte>)
    requires |head| == 4
    ensures var input := head + s + t;
            input == head + (s + t) && input[4..4 + |s|] == s && input[4 + |s|..] == t
  {
  }

  /** As long as a frame is incomplete, nothing is taken. */
  lemma TakePart(c: Context, m: Message, input: seq<byte>)
    requires Sendable(m) && input <= Frame(c, m).data && |input| < |Frame(c, m).data|
    ensures TakePacket(Receiver(c, input, [])) == Incomplete
  {
    if |input| >= 4 {
      hide Encrypt, Plain, HeaderOf, PutInt, Open, PaddingLength, Takes;
      FrameFits(c, m);
      var len := LengthField(m);
      HeaderOfFrame(len, input[4..]);
      assert input[..4] == PutInt(len);
      assert input == PutInt(len) + input[4..];
    }
  }
}
