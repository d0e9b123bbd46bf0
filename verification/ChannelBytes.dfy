/**
 Byte conservation.  `pairs` records which socket of `me` was connected to which socket
 of `peer` when an open request was accepted; the accounting for one direction, from
 the sockets `me` reads to the sockets `peer` writes, is `BytesOk`.
 */
module ChannelBytes {
  import opened Bytes
  import opened Channels
  import opened ChannelSafety

  type Pairs = set<(int, int)>

  function ReadOf(t: Table, s: int): seq<byte> { if 0 <= s < |t.sockets| then t.sockets[s].read else [] }
  function WrittenOf(t: Table, s: int): seq<byte> { if 0 <= s < |t.sockets| then t.sockets[s].written else [] }
  predicate DrainedOf(t: Table, s: int) { 0 <= s < |t.sockets| && t.sockets[s].drained }

  /** The data bytes carried by a run of messages. */
  function Payload(q: seq<Message>): seq<byte> {
    if q == [] then [] else (if q[0].Data? then q[0].data else []) + Payload(q[1..])
  }

  lemma {:induction false} PayloadConcat(p: seq<Message>, q: seq<Message>)
    ensures Payload(p + q) == Payload(p) + Payload(q)
  {
    if p == [] {
      assert p + q == q;
    } else {
      PayloadConcat(p[1..], q);
      assert (p + q)[1..] == p[1..] + q;
    }
  }

  /** After EOF no data is left in a flow. */
  lemma {:induction false} FlowAfterEof(q: seq<Message>, cr: bool, es: bool, cs: bool)
    requires Flow(q, true, cr, es, cs)
    ensures es && Payload(q) == []
  {
    if q != [] {
      if q[0].OutputClosed? { FlowAfterEof(q[1..], true, es, cs); }
    }
  }

  /** Slot i and its partner are the two ends of one connection. */
  ghost predicate Linked(i: int, own: Channel, q: seq<Message>, other: Channel, back: seq<Message>) {
    || (own.kind == Open && other.kind == Open && other.remoteId == i)
    || (own.kind == Open && other.kind == Opening && back != [] && back[0] == OpenConfirmation(own.remoteId, i))
    || (own.kind == Opening && q != [] && q[0].OpenConfirmation?)
  }

  /** What slot i has read is with the partner's socket, in its output buffer, on the
      link or still in the input buffer, until the partner closes its output. */
  ghost predicate LinkOk(me: Table, peer: Table, pairs: Pairs, i: int) {
    var own, q := At(me, i), Pending(peer.wire, i);
    var k := Partner(own, q);
    var other, back := At(peer, k), Pending(me.wire, k);
    Linked(i, own, q, other, back) ==>
      && (own.sock, other.sock) in pairs
      && (!other.status.outputClosed ==>
            ReadOf(me, own.sock) == WrittenOf(peer, other.sock) + other.output + Payload(back) + own.input)
  }

  /** An unanswered channel has a socket nobody is connected to and nothing was read. */
  ghost predicate OpeningFresh(me: Table, peer: Table, pairs: Pairs, i: int) {
    var own, q := At(me, i), Pending(peer.wire, i);
    own.kind == Opening ==>
      && ReadOf(me, own.sock) == [] && WrittenOf(me, own.sock) == [] && !DrainedOf(me, own.sock)
      && (!(q != [] && q[0].OpenConfirmation?) ==> forall t :: (own.sock, t) !in pairs)
  }

  /** Written is a prefix of read; after a close that followed EOF with an empty output
      buffer they are equal and nothing more will be read. */
  ghost predicate PairOk(me: Table, peer: Table, s: int, t: int) {
    && 0 <= s < |me.sockets| && 0 <= t < |peer.sockets|
    && WrittenOf(peer, t) <= ReadOf(me, s)
    && (DrainedOf(peer, t) ==>
          WrittenOf(peer, t) == ReadOf(me, s)
          && forall i :: At(me, i).kind in {Opening, Open} && At(me, i).sock == s ==> At(me, i).status.inputClosed)
  }

  ghost predicate Matching(pairs: Pairs) {
    && (forall s, t, t' :: (s, t) in pairs && (s, t') in pairs ==> t == t')
    && (forall s, s', t :: (s, t) in pairs && (s', t) in pairs ==> s == s')
  }

  ghost predicate BytesOk(me: Table, peer: Table, pairs: Pairs) {
    && Matching(pairs)
    && (forall s, t :: (s, t) in pairs ==> PairOk(me, peer, s, t))
    && (forall i :: LinkOk(me, peer, pairs, i))
    && (forall i :: OpeningFresh(me, peer, pairs, i))
  }

  ghost function Swap(pairs: Pairs): Pairs { set p | p in pairs :: (p.1, p.0) }

  lemma SwapIn(pairs: Pairs)
    ensures forall s, t :: (s, t) in Swap(pairs) <==> (t, s) in pairs
  {
    forall s, t ensures (s, t) in Swap(pairs) <==> (t, s) in pairs {
      if (t, s) in pairs { assert ((t, s).1, (t, s).0) in Swap(pairs); }
    }
  }

  // ---------- a step of one open channel ----------

  ghost predicate SocketsExcept(me: Table, me': Table, s: int) {
    && |me'.sockets| == |me.sockets|
    && forall x :: 0 <= x < |me.sockets| && x != s ==> me'.sockets[x] == me.sockets[x]
  }

  /** Slot i goes from At(me, i) to b, sending `out`. */
  ghost predicate OwnStep(me: Table, me': Table, i: int, b: Channel, out: seq<Message>) {
    var a := At(me, i);
    var s := a.sock;
    && a.kind == Open && b.kind == Open && b.remoteId == a.remoteId && b.sock == s
    && Replaces(me, me', i, b) && me'.wire == me.wire + out && SocketsExcept(me, me', s)
    && Consistent(b)
    && b.status.eofReceived == a.status.eofReceived && b.status.closeReceived == a.status.closeReceived
    && (|| (out == [] && b.status.eofSent == a.status.eofSent && b.status.closeSent == a.status.closeSent)
        || (|out| == 1 && Sends(a, b, out[0])))
    // what was read is accounted for
    && ReadOf(me, s) <= ReadOf(me', s)
    && a.input + ReadOf(me', s)[|ReadOf(me, s)|..] == Payload(out) + b.input
    && (a.status.inputClosed ==> b.status.inputClosed && ReadOf(me', s) == ReadOf(me, s))
    // what was written is accounted for
    && WrittenOf(me, s) <= WrittenOf(me', s)
    && (b.status.outputClosed ==> WrittenOf(me', s) == WrittenOf(me, s))
    && (a.status.outputClosed ==> b.status.outputClosed)
    && (!b.status.outputClosed ==> WrittenOf(me', s) + b.output == WrittenOf(me, s) + a.output)
    && (DrainedOf(me', s) && !DrainedOf(me, s) ==>
          !a.status.outputClosed && a.status.eofReceived && a.output == [] && b.status.outputClosed)
  }

  lemma OwnStepSlots(me: Table, me': Table, peer: Table, i: int, b: Channel, out: seq<Message>)
    requires SlotsOk(me, peer) && SlotsOk(peer, me) && OwnStep(me, me', i, b, out)
    ensures SlotsOk(me', peer) && SlotsOk(peer, me')
  {
    if out == [] {
      assert me'.wire == me.wire;
      LocalUpdate(me, me', peer, i, b);
    } else {
      assert out == [out[0]];
      SendUpdate(me, me', peer, i, b, out[0]);
    }
  }

  /** A channel whose output is open is linked to its partner, seen from either end. */
  lemma OpenOutputLinked(me: Table, peer: Table, i: int)
    requires SlotsOk(me, peer) && SlotsOk(peer, me)
    requires At(me, i).kind == Open && !(At(me, i).status.eofSent && At(me, i).status.closeSent)
    ensures var k := At(me, i).remoteId;
            var other, q := At(peer, k), Pending(me.wire, k);
            && Partner(other, q) == i
            && Linked(k, other, q, At(me, i), Pending(peer.wire, i))
            && (other.kind == Open || other.kind == Opening)
            && (At(me, i).status.eofReceived ==> other.status.eofSent)
  {
    assert SlotOk(me, peer, i);
    var st, k := At(me, i).status, At(me, i).remoteId;
    var other := At(peer, k);
    if other.kind == Open && other.remoteId == i {
      FlowMonotone(Pending(peer.wire, i), st.eofReceived, st.closeReceived, other.status.eofSent,
          other.status.closeSent);
    }
  }

  /** Two slots cannot be linked to the same partner. */
  lemma LinkedOnce(me: Table, peer: Table, i: int, j: int)
    requires SlotsOk(me, peer) && SlotsOk(peer, me)
    requires At(me, i).kind == Open && !(At(me, i).status.eofSent && At(me, i).status.closeSent)
    requires j != i && Partner(At(me, j), Pending(peer.wire, j)) == At(me, i).remoteId
    ensures var k := At(me, i).remoteId;
            !Linked(j, At(me, j), Pending(peer.wire, j), At(peer, k), Pending(me.wire, k))
  {
    OpenOutputLinked(me, peer, i);
    assert SlotOk(me, peer, j);
  }

  lemma OwnStepSending(me: Table, me': Table, peer: Table, pairs: Pairs, i: int, b: Channel, out: seq<Message>)
    requires WellFormed(me) && SlotsOk(me, peer) && SlotsOk(peer, me) && OwnStep(me, me', i, b, out)
    requires BytesOk(me, peer, pairs)
    ensures BytesOk(me', peer, pairs)
  {
    var a, k := At(me, i), At(me, i).remoteId;
    if out != [] {
      assert out == [out[0]];
      PendingSendAll(me.wire, out[0]);
    } else {
      assert me'.wire == me.wire;
    }
    forall s, t | (s, t) in pairs ensures PairOk(me', peer, s, t) {
      assert PairOk(me, peer, s, t);
    }
    forall j ensures LinkOk(me', peer, pairs, j) {
      assert LinkOk(me, peer, pairs, j);
      if j == i {
        OwnStepSendingLink(me, me', peer, pairs, i, b, out);
      } else if out != [] && Partner(At(me, j), Pending(peer.wire, j)) == k {
        LinkedOnce(me, peer, i, j);
      }
    }
    forall j ensures OpeningFresh(me', peer, pairs, j) {
      assert OpeningFresh(me, peer, pairs, j);
    }
  }

  lemma ReadOn(w: seq<byte>, onLink: seq<byte>, input: seq<byte>, more: seq<byte>, sent: seq<byte>, left: seq<byte>)
    requires input + more == sent + left
    ensures w + onLink + input + more == w + (onLink + sent) + left
  {
    assert w + onLink + input + more == w + onLink + (input + more);
    assert w + (onLink + sent) + left == w + onLink + (sent + left);
  }

  lemma SentIsNoAnswer(a: Channel, b: Channel, m: Message)
    requires Sends(a, b, m)
    ensures m.Data? || m.InputEof? || m.OutputClosed?
  {
  }

  lemma OwnStepSendingLink(me: Table, me': Table, peer: Table, pairs: Pairs, i: int, b: Channel, out: seq<Message>)
    requires OwnStep(me, me', i, b, out) && LinkOk(me, peer, pairs, i)
    requires Pending(me'.wire, b.remoteId) == Pending(me.wire, b.remoteId) + out
    ensures LinkOk(me', peer, pairs, i)
  {
    hide At, Pending, Payload, Consistent, Sends;
    if out != [] { SentIsNoAnswer(At(me, i), b, out[0]); }
    var a, s, k := At(me, i), At(me, i).sock, b.remoteId;
    var back, other := Pending(me.wire, k), At(peer, k);
    PayloadConcat(back, out);
    var more := ReadOf(me', s)[|ReadOf(me, s)|..];
    assert ReadOf(me', s) == ReadOf(me, s) + more;
    ReadOn(WrittenOf(peer, other.sock) + other.output, Payload(back), a.input, more, Payload(out), b.input);
    hide ReadOf, WrittenOf;
    assert At(me', i) == b;
  }

  lemma OwnStepReceiving(me: Table, me': Table, peer: Table, pairs: Pairs, i: int, b: Channel, out: seq<Message>)
    requires WellFormed(me) && WellFormed(peer) && SlotsOk(me, peer) && SlotsOk(peer, me) && OwnStep(me, me', i, b, out)
    requires BytesOk(peer, me, pairs)
    ensures BytesOk(peer, me', pairs)
  {
    var a := At(me, i);
    OwnStepReceivingLinks(me, me', peer, pairs, i, b, out);
    forall s, t | (s, t) in pairs ensures PairOk(peer, me', s, t) {
      assert PairOk(peer, me, s, t);
      if t == a.sock && !a.status.outputClosed {
        assert SlotOk(me, peer, i) && SlotOk(peer, me, a.remoteId);
        OpenOutputLinked(me, peer, i);
        assert LinkOk(peer, me, pairs, a.remoteId);
        OwnStepPair(me, me', peer, pairs, i, b, out, s);
      }
    }
  }

  lemma OwnStepReceivingLinks(me: Table, me': Table, peer: Table, pairs: Pairs, i: int, b: Channel, out: seq<Message>)
    requires WellFormed(me) && OwnStep(me, me', i, b, out)
    requires forall j :: LinkOk(peer, me, pairs, j)
    requires forall j :: OpeningFresh(peer, me, pairs, j)
    ensures forall j :: LinkOk(peer, me', pairs, j)
    ensures forall j :: OpeningFresh(peer, me', pairs, j)
  {
    hide *;
    OwnStepWire(me, me', i, b, out);
    forall j ensures LinkOk(peer, me', pairs, j) {
      OwnStepReceivingLink(me, me', peer, pairs, i, b, out, j);
    }
    forall j ensures OpeningFresh(peer, me', pairs, j) {
      OwnStepReceivingFresh(me, me', peer, pairs, i, b, out, j);
    }
  }

  /** What a step sends goes to the partner's slot only. */
  lemma OwnStepWire(me: Table, me': Table, i: int, b: Channel, out: seq<Message>)
    requires OwnStep(me, me', i, b, out)
    ensures forall x :: Pending(me'.wire, x) == if x == b.remoteId then Pending(me.wire, x) + out else
        Pending(me.wire, x)
  {
    if out != [] {
      assert out == [out[0]];
      PendingSendAll(me.wire, out[0]);
    } else {
      assert me'.wire == me.wire;
    }
  }

  lemma OwnStepReceivingLink(me: Table, me': Table, peer: Table, pairs: Pairs, i: int, b: Channel, out: seq<Message>,
      j: int)
    requires WellFormed(me) && OwnStep(me, me', i, b, out) && LinkOk(peer, me, pairs, j)
    requires forall x :: Pending(me'.wire, x) == if x == b.remoteId then Pending(me.wire, x) + out else
        Pending(me.wire, x)
    ensures LinkOk(peer, me', pairs, j)
  {
    hide Pending;
  }

  lemma OwnStepReceivingFresh(me: Table, me': Table, peer: Table, pairs: Pairs, i: int, b: Channel,
      out: seq<Message>, j: int)
    requires OwnStep(me, me', i, b, out) && OpeningFresh(peer, me, pairs, j)
    requires forall x :: Pending(me'.wire, x) == if x == b.remoteId then Pending(me.wire, x) + out else
        Pending(me.wire, x)
    ensures OpeningFresh(peer, me', pairs, j)
  {
    hide Pending, At;
  }

  lemma OwnStepPair(me: Table, me': Table, peer: Table, pairs: Pairs, i: int, b: Channel, out: seq<Message>, s: int)
    requires WellFormed(peer) && OwnStep(me, me', i, b, out) && Matching(pairs)
    requires var a := At(me, i); SlotOk(me, peer, i) && SlotOk(peer, me, a.remoteId) && LinkOk(peer, me, pairs,
        a.remoteId)
    requires var a := At(me, i);
             var other, q := At(peer, a.remoteId), Pending(me.wire, a.remoteId);
             && !a.status.outputClosed
             && Partner(other, q) == i && (other.kind == Open || other.kind == Opening)
             && Linked(a.remoteId, other, q, a, Pending(peer.wire, i))
             && (a.status.eofReceived ==> other.status.eofSent)
             && (s, a.sock) in pairs && PairOk(peer, me, s, a.sock)
    ensures PairOk(peer, me', s, At(me, i).sock)
  {
    var a := At(me, i);
    var other := At(peer, a.remoteId);
    var back, s' := Pending(peer.wire, i), a.sock;
    assert s == other.sock;
    var w, w', r := WrittenOf(me, s'), WrittenOf(me', s'), ReadOf(peer, s);
    assert r == w + a.output + Payload(back) + other.input;
    if !b.status.outputClosed {
      assert r == w' + b.output + Payload(back) + other.input;
      assert DrainedOf(me, s') ==> |w'| == |r|;
    }
    if a.status.eofReceived && a.output == [] {
      FlowAfterEof(back, a.status.closeReceived, other.status.eofSent, other.status.closeSent);
      assert r == w;
    }
  }

  lemma OwnStepBytes(me: Table, me': Table, peer: Table, pairs: Pairs, i: int, b: Channel, out: seq<Message>)
    requires Good(me, peer, pairs) && WellFormed(me') && OwnStep(me, me', i, b, out)
    ensures Good(me', peer, pairs)
  {
    OwnStepSlots(me, me', peer, i, b, out);
    OwnStepSending(me, me', peer, pairs, i, b, out);
    OwnStepReceiving(me, me', peer, Swap(pairs), i, b, out);
  }

  // ---------- the whole invariant ----------

  /** Safety and conservation in both directions. */
  ghost predicate Good(me: Table, peer: Table, pairs: Pairs) {
    Inv(me, peer) && BytesOk(me, peer, pairs) && BytesOk(peer, me, Swap(pairs))
  }

  lemma FreeBytes(me: Table, me': Table, peer: Table, pairs: Pairs, i: int)
    requires Good(me, peer, pairs) && WellFormed(me')
    requires At(me, i).kind == Open && At(me, i).status.Terminates()
    requires Replaces(me, me', i, FREE_CHANNEL) && me'.wire == me.wire && me'.sockets == me.sockets
    ensures Good(me', peer, pairs)
  {
    FreeUpdate(me, me', peer, i);
    FreeSending(me, me', peer, pairs, i);
    FreeReceiving(me, me', peer, Swap(pairs), i);
  }

  lemma FreeSending(me: Table, me': Table, peer: Table, pairs: Pairs, i: int)
    requires BytesOk(me, peer, pairs)
    requires Replaces(me, me', i, FREE_CHANNEL) && me'.wire == me.wire && me'.sockets == me.sockets
    ensures BytesOk(me', peer, pairs)
  {
    forall s, t | (s, t) in pairs ensures PairOk(me', peer, s, t) {
      assert PairOk(me, peer, s, t);
    }
    forall j ensures LinkOk(me', peer, pairs, j) && OpeningFresh(me', peer, pairs, j) {
      assert LinkOk(me, peer, pairs, j) && OpeningFresh(me, peer, pairs, j);
    }
  }

  lemma FreeReceiving(me: Table, me': Table, peer: Table, pairs: Pairs, i: int)
    requires SlotsOk(peer, me) && BytesOk(peer, me, pairs)
    requires At(me, i).kind == Open && At(me, i).status.Terminates()
    requires Replaces(me, me', i, FREE_CHANNEL) && me'.wire == me.wire && me'.sockets == me.sockets
    ensures BytesOk(peer, me', pairs)
  {
    forall s, t | (s, t) in pairs ensures PairOk(peer, me', s, t) {
      assert PairOk(peer, me, s, t);
    }
    forall j ensures LinkOk(peer, me', pairs, j) && OpeningFresh(peer, me', pairs, j) {
      assert LinkOk(peer, me, pairs, j) && OpeningFresh(peer, me, pairs, j);
      assert SlotOk(peer, me, j);
    }
  }

  // ---------- receiving data, EOF and close ----------

  ghost predicate Receives(me: Table, me': Table, peer: Table, peer': Table, i: int, b: Channel) {
    var a := At(me, i);
    && a.kind == Open && Replaces(me, me', i, b) && me'.wire == me.wire && me'.sockets == me.sockets
    && peer.wire != [] && peer' == peer.(wire := peer.wire[1..]) && Targets(peer.wire[0], i)
    && b.kind == Open && b.remoteId == a.remoteId && b.sock == a.sock && Consistent(b)
    && b.status == a.status.(inputClosed := b.status.inputClosed,
                             eofReceived := a.status.eofReceived || peer.wire[0].InputEof?,
                             closeReceived := a.status.closeReceived || peer.wire[0].OutputClosed?)
    && (a.status.inputClosed ==> b.status.inputClosed)
    && (b.input == a.input || peer.wire[0].OutputClosed?)
    && b.output == if peer.wire[0].Data? && !a.status.outputClosed then a.output + peer.wire[0].data else a.output
  }

  lemma ReceiveBytes(me: Table, me': Table, peer: Table, peer': Table, pairs: Pairs, i: int, b: Channel)
    requires Good(me, peer, pairs) && WellFormed(me') && Receives(me, me', peer, peer', i, b)
    ensures Good(me', peer', pairs)
  {
    ReceiveUpdate(me, me', peer, peer', i, b);
    ReceiveSending(me, me', peer, peer', pairs, i, b);
    ReceiveReceiving(me, me', peer, peer', Swap(pairs), i, b);
  }

  /** The message at the head of the link leaves it; nothing else moves. */
  ghost predicate HeadTaken(peer: Table, peer': Table, i: int) {
    && peer.wire != []
    && (forall j :: At(peer', j) == At(peer, j)) && peer'.sockets == peer.sockets
    && (forall x :: Pending(peer.wire, x) == if x == i then [peer.wire[0]] + Pending(peer'.wire, x) else
        Pending(peer'.wire, x))
  }

  lemma ReceivesTakesHead(me: Table, me': Table, peer: Table, peer': Table, i: int, b: Channel)
    requires Receives(me, me', peer, peer', i, b)
    ensures HeadTaken(peer, peer', i)
  {
    PendingReceiveAll(peer.wire);
    SameSlots(peer, peer');
  }

  /** The receiver's own outgoing direction: a close message says the partner's output is
      closed, so clearing the input buffer loses nothing that is accounted for. */
  lemma ReceiveSending(me: Table, me': Table, peer: Table, peer': Table, pairs: Pairs, i: int, b: Channel)
    requires WellFormed(me) && SlotsOk(me, peer) && SlotsOk(peer, me) && BytesOk(me, peer, pairs)
    requires Receives(me, me', peer, peer', i, b)
    ensures BytesOk(me', peer', pairs)
  {
    hide At, Pending, Requests, WellFormed, SlotOk, PairOk, LinkOk, OpeningFresh, Matching, HeadTaken, Receives,
        Takes, Accepts, Confirms, Fails;
    ReceivesTakesHead(me, me', peer, peer', i, b);
    forall s, t | (s, t) in pairs ensures PairOk(me', peer', s, t) {
      ReceiveSendingPair(me, me', peer, peer', i, b, s, t);
    }
    forall j ensures LinkOk(me', peer', pairs, j) && OpeningFresh(me', peer', pairs, j) {
      ReceiveSendingSlot(me, me', peer, peer', pairs, i, b, j);
    }
  }

  lemma ReceiveSendingPair(me: Table, me': Table, peer: Table, peer': Table, i: int, b: Channel, s: int, t: int)
    requires Receives(me, me', peer, peer', i, b) && HeadTaken(peer, peer', i) && PairOk(me, peer, s, t)
    ensures PairOk(me', peer', s, t)
  {
    hide At, Pending, Consistent;
  }

  lemma ReceiveSendingSlot(me: Table, me': Table, peer: Table, peer': Table, pairs: Pairs, i: int, b: Channel, j: int)
    requires SlotOk(me, peer, i) && SlotOk(peer, me, b.remoteId)
    requires LinkOk(me, peer, pairs, j) && OpeningFresh(me, peer, pairs, j)
    requires Receives(me, me', peer, peer', i, b) && HeadTaken(peer, peer', i)
    ensures LinkOk(me', peer', pairs, j) && OpeningFresh(me', peer', pairs, j)
  {
    hide At, Pending, Requests;
    if j == i && peer.wire[0].OutputClosed? {
      var q, other := Pending(peer.wire, i), At(peer, b.remoteId);
      FlowReceive(q, At(me, i).status.eofReceived, At(me, i).status.closeReceived);
      if other.kind == Open && other.remoteId == i {
        FlowMonotone(q[1..], At(me, i).status.eofReceived, true, other.status.eofSent, other.status.closeSent);
      }
    }
  }

  lemma ReceiveReceiving(me: Table, me': Table, peer: Table, peer': Table, pairs: Pairs, i: int, b: Channel)
    requires WellFormed(me) && SlotsOk(me, peer) && SlotsOk(peer, me) && BytesOk(peer, me, pairs)
    requires Receives(me, me', peer, peer', i, b)
    ensures BytesOk(peer', me', pairs)
  {
    hide At, Pending, Requests, WellFormed, SlotOk, PairOk, LinkOk, OpeningFresh, Matching, HeadTaken, Receives,
        Takes, Accepts, Confirms, Fails;
    ReceivesTakesHead(me, me', peer, peer', i, b);
    forall s, t | (s, t) in pairs ensures PairOk(peer', me', s, t) {
      ReceiveReceivingPair(me, me', peer, peer', i, b, s, t);
    }
    forall j ensures LinkOk(peer', me', pairs, j) && OpeningFresh(peer', me', pairs, j) {
      ReceiveReceivingFresh(me, me', peer, peer', pairs, i, b, j);
      ReceiveReceivingLink(me, me', peer, peer', pairs, i, b, j);
    }
  }

  lemma ReceiveReceivingPair(me: Table, me': Table, peer: Table, peer': Table, i: int, b: Channel, s: int, t: int)
    requires Receives(me, me', peer, peer', i, b) && HeadTaken(peer, peer', i) && PairOk(peer, me, s, t)
    ensures PairOk(peer', me', s, t)
  {
    hide At, Pending, Consistent;
  }

  lemma ReceiveReceivingFresh(me: Table, me': Table, peer: Table, peer': Table, pairs: Pairs, i: int, b: Channel,
      j: int)
    requires Receives(me, me', peer, peer', i, b) && HeadTaken(peer, peer', i) && OpeningFresh(peer, me, pairs, j)
    ensures OpeningFresh(peer', me', pairs, j)
  {
    hide At, Pending, Consistent;
  }

  lemma ReceiveReceivingLink(me: Table, me': Table, peer: Table, peer': Table, pairs: Pairs, i: int, b: Channel, j: int)
    requires SlotOk(me, peer, i) && SlotOk(peer, me, j) && LinkOk(peer, me, pairs, j)
    requires Receives(me, me', peer, peer', i, b) && HeadTaken(peer, peer', i)
    ensures LinkOk(peer', me', pairs, j)
  {
    hide At, Pending, Requests;
    if Partner(At(peer, j), Pending(me.wire, j)) == i {
      var m, rest := peer.wire[0], Pending(peer'.wire, i);
      assert Pending(peer.wire, i) == [m] + rest;
      DataArrives(m, rest, At(me, i).output, WrittenOf(me, b.sock), At(peer, j).input);
    }
  }

  lemma DataArrives(m: Message, rest: seq<Message>, out: seq<byte>, written: seq<byte>, unsent: seq<byte>)
    ensures written + out + Payload([m] + rest) + unsent ==
            written + (if m.Data? then out + m.data else out) + Payload(rest) + unsent
  {
    PayloadConcat([m], rest);
    if m.Data? {
      assert Payload([m]) == m.data;
      assert written + out + (m.data + Payload(rest)) + unsent == written + (out + m.data) + Payload(rest) + unsent;
    } else {
      assert Payload([m]) == [];
      assert [] + Payload(rest) == Payload(rest);
    }
  }

  // ---------- opening ----------

  /** A free slot takes b with a socket of its own. */
  ghost predicate Takes(me: Table, me': Table, i: int, b: Channel) {
    && At(me, i).kind == Free && i >= 0 && Replaces(me, me', i, b)
    && b.sock == |me.sockets| && me'.sockets == me.sockets + [Socket([], [], false)]
  }

  lemma OpeningBytes(me: Table, me': Table, peer: Table, pairs: Pairs, i: int, b: Channel, m: Message)
    requires Good(me, peer, pairs) && WellFormed(me') && Takes(me, me', i, b)
    requires || (b.kind == Listener && me'.wire == me.wire)
             || (b.kind == Opening && Blank(b) && IsRequest(m, i) && me'.wire == me.wire + [m])
    ensures Good(me', peer, pairs)
  {
    PendingSendAll(me.wire, m);
    hide At, Pending, Requests, WellFormed, SlotsOk, BytesOk, Swap;
    OpeningUpdate(me, me', peer, i, b, m);
    assert forall j :: Pending(me'.wire, j) == Pending(me.wire, j);
    OpeningSending(me, me', peer, pairs, i, b);
    OpeningReceiving(me, me', peer, Swap(pairs), i, b);
  }

  lemma OpeningSending(me: Table, me': Table, peer: Table, pairs: Pairs, i: int, b: Channel)
    requires WellFormed(me) && SlotsOk(me, peer) && BytesOk(me, peer, pairs) && Takes(me, me', i, b)
    requires b.kind != Open && b.kind != Free
    requires forall j :: Pending(me'.wire, j) == Pending(me.wire, j)
    ensures BytesOk(me', peer, pairs)
  {
    hide At, Pending, Requests, WellFormed, SlotOk, PairOk, LinkOk, OpeningFresh, Matching, HeadTaken, Receives,
        Takes, Accepts, Confirms, Fails;
    assert SlotOk(me, peer, i);
    forall s, t | (s, t) in pairs ensures PairOk(me', peer, s, t) {
      OpeningPair(me, me', peer, i, b, s, t);
    }
    forall j ensures LinkOk(me', peer, pairs, j) && OpeningFresh(me', peer, pairs, j) {
      OpeningSendingSlot(me, me', peer, pairs, i, b, j);
    }
  }

  lemma OpeningPair(me: Table, me': Table, peer: Table, i: int, b: Channel, s: int, t: int)
    requires Takes(me, me', i, b) && b.kind != Open && b.kind != Free && WellFormed(me)
    ensures PairOk(me, peer, s, t) ==> PairOk(me', peer, s, t)
    ensures PairOk(peer, me, s, t) ==> PairOk(peer, me', s, t)
  {
    hide Pending;
  }

  lemma OpeningSendingSlot(me: Table, me': Table, peer: Table, pairs: Pairs, i: int, b: Channel, j: int)
    requires WellFormed(me) && SlotOk(me, peer, i) && Takes(me, me', i, b) && b.kind != Open && b.kind != Free
    requires LinkOk(me, peer, pairs, j) && OpeningFresh(me, peer, pairs, j)
    requires forall s, t :: (s, t) in pairs ==> PairOk(me, peer, s, t)
    requires forall x :: Pending(me'.wire, x) == Pending(me.wire, x)
    ensures LinkOk(me', peer, pairs, j) && OpeningFresh(me', peer, pairs, j)
  {
    hide Pending, Requests, Flow;
    if j == i && b.kind == Opening {
      assert forall t :: (b.sock, t) in pairs ==> PairOk(me, peer, b.sock, t);
    }
  }

  lemma OpeningReceiving(me: Table, me': Table, peer: Table, pairs: Pairs, i: int, b: Channel)
    requires WellFormed(me) && SlotsOk(peer, me) && SlotsOk(me, peer) && BytesOk(peer, me, pairs) && Takes(me, me',
        i, b)
    requires b.kind != Open && b.kind != Free
    requires forall j :: Pending(me'.wire, j) == Pending(me.wire, j)
    ensures BytesOk(peer, me', pairs)
  {
    hide At, Pending, Requests, WellFormed, SlotOk, PairOk, LinkOk, OpeningFresh, Matching, HeadTaken, Receives,
        Takes, Accepts, Confirms, Fails;
    assert SlotOk(me, peer, i);
    forall s, t | (s, t) in pairs ensures PairOk(peer, me', s, t) {
      OpeningPair(me, me', peer, i, b, s, t);
    }
    forall j ensures LinkOk(peer, me', pairs, j) && OpeningFresh(peer, me', pairs, j) {
      assert SlotOk(peer, me, j);
      OpeningReceivingSlot(me, me', peer, pairs, i, b, j);
    }
  }

  lemma OpeningReceivingSlot(me: Table, me': Table, peer: Table, pairs: Pairs, i: int, b: Channel, j: int)
    requires WellFormed(me) && SlotOk(me, peer, i) && SlotOk(peer, me, j) && Takes(me, me', i, b)
    requires b.kind != Open && b.kind != Free
    requires LinkOk(peer, me, pairs, j) && OpeningFresh(peer, me, pairs, j)
    requires forall x :: Pending(me'.wire, x) == Pending(me.wire, x)
    ensures LinkOk(peer, me', pairs, j) && OpeningFresh(peer, me', pairs, j)
  {
    hide Pending, Requests, Flow;
  }

  /** The open request of r at the head of the link was answered by sending m. */
  ghost predicate Answers(me: Table, me': Table, peer: Table, peer': Table, r: int, m: Message) {
    && peer.wire != [] && IsRequest(peer.wire[0], r) && peer' == peer.(wire := peer.wire[1..])
    && me'.wire == me.wire + [m] && Targets(m, r)
  }

  /** What the answer changes: only the requester's slot has a new message coming. */
  ghost predicate Answered(me: Table, me': Table, peer: Table, peer': Table, r: int, m: Message) {
    && At(peer, r).kind == Opening && Pending(me.wire, r) == [] && Pending(me'.wire, r) == [m]
    && (forall j :: j != r ==> Pending(me'.wire, j) == Pending(me.wire, j))
    && (forall j :: Pending(peer'.wire, j) == Pending(peer.wire, j))
    && (forall j :: At(peer', j) == At(peer, j))
    && peer'.sockets == peer.sockets
  }

  lemma AnswersWire(me: Table, me': Table, peer: Table, peer': Table, r: int, m: Message)
    requires SlotsOk(peer, me) && Answers(me, me', peer, peer', r, m)
    ensures Answered(me, me', peer, peer', r, m)
  {
    PendingSendAll(me.wire, m);
    PendingReceiveAll(peer.wire);
    assert SlotOk(peer, me, r);
  }

  lemma RefuseBytes(me: Table, me': Table, peer: Table, peer': Table, pairs: Pairs, r: int)
    requires Good(me, peer, pairs) && WellFormed(me')
    requires Answers(me, me', peer, peer', r, OpenFailure(r)) && me' == me.(wire := me'.wire)
    ensures Good(me', peer', pairs)
  {
    assert forall j :: At(me', j) == At(me, j);
    AnswerUpdate(me, me', peer, peer', |me.channels|, FREE_CHANNEL, false);
    AnswersWire(me, me', peer, peer', r, OpenFailure(r));
    RefuseSending(me, me', peer, peer', pairs, r);
    RefuseReceiving(me, me', peer, peer', Swap(pairs), r);
  }

  lemma RefuseSending(me: Table, me': Table, peer: Table, peer': Table, pairs: Pairs, r: int)
    requires SlotsOk(me, peer) && BytesOk(me, peer, pairs)
    requires Answered(me, me', peer, peer', r, OpenFailure(r)) && me' == me.(wire := me'.wire)
    ensures BytesOk(me', peer', pairs)
  {
    assert forall j :: At(me', j) == At(me, j);
    forall s, t | (s, t) in pairs ensures PairOk(me', peer', s, t) {
      assert PairOk(me, peer, s, t);
    }
    forall j ensures OpeningFresh(me', peer', pairs, j) {
      assert OpeningFresh(me, peer, pairs, j);
    }
    forall j ensures LinkOk(me', peer', pairs, j) {
      assert SlotOk(me, peer, j) && LinkOk(me, peer, pairs, j);
      RefuseLink(me, me', peer, peer', pairs, r, j);
    }
  }

  lemma RefuseLink(me: Table, me': Table, peer: Table, peer': Table, pairs: Pairs, r: int, j: int)
    requires SlotOk(me, peer, j) && LinkOk(me, peer, pairs, j)
    requires Answered(me, me', peer, peer', r, OpenFailure(r)) && me' == me.(wire := me'.wire)
    ensures LinkOk(me', peer', pairs, j)
  {
    hide Pending, Requests, Consistent, Blank, Flow;
  }

  lemma RefuseReceiving(me: Table, me': Table, peer: Table, peer': Table, pairs: Pairs, r: int)
    requires BytesOk(peer, me, pairs)
    requires Answered(me, me', peer, peer', r, OpenFailure(r)) && me' == me.(wire := me'.wire)
    ensures BytesOk(peer', me', pairs)
  {
    assert forall j :: At(me', j) == At(me, j);
    forall s, t | (s, t) in pairs ensures PairOk(peer', me', s, t) {
      assert PairOk(peer, me, s, t);
    }
    forall j ensures LinkOk(peer', me', pairs, j) && OpeningFresh(peer', me', pairs, j) {
      assert LinkOk(peer, me, pairs, j) && OpeningFresh(peer, me, pairs, j);
    }
  }

  /** An accepted open request of r puts a new channel b, with its own socket, in slot i. */
  ghost predicate Accepts(me: Table, me': Table, peer: Table, peer': Table, i: int, b: Channel) {
    && Takes(me, me', i, b) && b.kind == Open && Blank(b)
    && Pending(peer.wire, i) == []
    && Answered(me, me', peer, peer', b.remoteId, OpenConfirmation(b.remoteId, i))
  }

  lemma AcceptBytes(me: Table, me': Table, peer: Table, peer': Table, pairs: Pairs, i: int, b: Channel)
    requires Good(me, peer, pairs) && WellFormed(me')
    requires Takes(me, me', i, b) && b.kind == Open && Blank(b)
    requires Answers(me, me', peer, peer', b.remoteId, OpenConfirmation(b.remoteId, i))
    ensures Good(me', peer', pairs + {(b.sock, At(peer, b.remoteId).sock)})
  {
    hide At, Pending, Requests, Flow, PairOk, LinkOk, OpeningFresh, ViewOk, Matching;
    var r := b.remoteId;
    AnswerUpdate(me, me', peer, peer', i, b, true);
    AnswersWire(me, me', peer, peer', r, OpenConfirmation(r, i));
    FreeIsSilent(me, peer, i);
    OpeningIsBlank(peer, me, r);
    var s' := At(peer, r).sock;
    assert Swap(pairs + {(b.sock, s')}) == Swap(pairs) + {(s', b.sock)};
    assert OpeningFresh(peer, me, Swap(pairs), r);
    AcceptUnconnected(me, peer, pairs, b.sock, r);
    AcceptSending(me, me', peer, peer', pairs, i, b);
    AcceptReceiving(me, me', peer, peer', Swap(pairs), i, b);
    AnsweredWellFormed(peer, peer');
  }

  lemma FreeIsSilent(me: Table, peer: Table, i: int)
    requires SlotsOk(me, peer) && At(me, i).kind == Free
    ensures Pending(peer.wire, i) == []
  {
    assert SlotOk(me, peer, i);
  }

  lemma OpeningIsBlank(me: Table, peer: Table, i: int)
    requires SlotsOk(me, peer) && At(me, i).kind == Opening
    ensures Blank(At(me, i))
  {
    assert SlotOk(me, peer, i);
  }

  lemma AnsweredWellFormed(t: Table, t': Table)
    requires WellFormed(t) && t' == t.(wire := t'.wire)
    ensures WellFormed(t')
  {
  }

  /** Neither the new socket nor the requester's was connected before. */
  lemma AcceptUnconnected(me: Table, peer: Table, pairs: Pairs, s: int, r: int)
    requires forall s, t :: (s, t) in pairs ==> PairOk(me, peer, s, t)
    requires OpeningFresh(peer, me, Swap(pairs), r)
    requires s == |me.sockets| && At(peer, r).kind == Opening && Pending(me.wire, r) == []
    ensures forall t :: (s, t) !in pairs && (t, At(peer, r).sock) !in pairs
    ensures forall t :: (t, s) !in Swap(pairs) && (At(peer, r).sock, t) !in Swap(pairs)
  {
    SwapIn(pairs);
    assert forall t :: (s, t) in pairs ==> PairOk(me, peer, s, t);
    assert forall t :: (t, At(peer, r).sock) in pairs ==> (At(peer, r).sock, t) in Swap(pairs);
  }

  /** A pair of sockets that were not connected is added. */
  lemma MatchingAdd(pairs: Pairs, s: int, t: int)
    requires Matching(pairs) && forall x :: (s, x) !in pairs && (x, t) !in pairs
    ensures Matching(pairs + {(s, t)})
  {
  }

  lemma AcceptSending(me: Table, me': Table, peer: Table, peer': Table, pairs: Pairs, i: int, b: Channel)
    requires WellFormed(me) && WellFormed(peer) && SlotsOk(me, peer) && BytesOk(me, peer, pairs)
    requires Blank(At(peer, b.remoteId))
    requires Accepts(me, me', peer, peer', i, b)
    requires forall t :: (b.sock, t) !in pairs && (t, At(peer, b.remoteId).sock) !in pairs
    requires OpeningFresh(peer, me, Swap(pairs), b.remoteId)
    ensures BytesOk(me', peer', pairs + {(b.sock, At(peer, b.remoteId).sock)})
  {
    hide At, Pending, Requests, WellFormed, SlotOk, PairOk, LinkOk, OpeningFresh, Matching, HeadTaken, Receives,
        Takes, Accepts, Confirms, Fails;
    var pairs' := pairs + {(b.sock, At(peer, b.remoteId).sock)};
    MatchingAdd(pairs, b.sock, At(peer, b.remoteId).sock);
    forall s, t | (s, t) in pairs' ensures PairOk(me', peer', s, t) {
      assert (s, t) in pairs ==> PairOk(me, peer, s, t);
      AcceptSendingPair(me, me', peer, peer', pairs, i, b, s, t);
    }
    forall j ensures OpeningFresh(me', peer', pairs', j) {
      AcceptSendingFresh(me, me', peer, peer', pairs, i, b, j);
    }
    forall j ensures LinkOk(me', peer', pairs', j) {
      AcceptSendingLink(me, me', peer, peer', pairs, i, b, j);
    }
  }

  lemma AcceptSendingPair(me: Table, me': Table, peer: Table, peer': Table, pairs: Pairs, i: int, b: Channel, s: int,
      t: int)
    requires WellFormed(me) && WellFormed(peer) && Accepts(me, me', peer, peer', i, b)
    requires OpeningFresh(peer, me, Swap(pairs), b.remoteId)
    requires (s, t) in pairs + {(b.sock, At(peer, b.remoteId).sock)} && ((s, t) in pairs ==> PairOk(me, peer, s, t))
    ensures PairOk(me', peer', s, t)
  {
    hide Pending, Swap;
  }

  lemma AcceptSendingFresh(me: Table, me': Table, peer: Table, peer': Table, pairs: Pairs, i: int, b: Channel, j: int)
    requires WellFormed(me) && Accepts(me, me', peer, peer', i, b) && OpeningFresh(me, peer, pairs, j)
    ensures OpeningFresh(me', peer', pairs + {(b.sock, At(peer, b.remoteId).sock)}, j)
  {
    hide Pending;
  }

  lemma AcceptSendingLink(me: Table, me': Table, peer: Table, peer': Table, pairs: Pairs, i: int, b: Channel, j: int)
    requires WellFormed(me) && LinkOk(me, peer, pairs, j) && SlotOk(me, peer, j)
    requires Accepts(me, me', peer, peer', i, b) && OpeningFresh(peer, me, Swap(pairs), b.remoteId)
    requires Blank(At(peer, b.remoteId))
    ensures LinkOk(me', peer', pairs + {(b.sock, At(peer, b.remoteId).sock)}, j)
  {
    hide Pending, Requests, Swap;
    if j == i {
      hide WellFormed, At;
      assert Payload([OpenConfirmation(b.remoteId, i)]) == [];
      assert ReadOf(me', b.sock) == [];
    } else {
      AcceptSendingOther(me, me', peer, peer', pairs, i, b, j);
    }
  }

  lemma AcceptSendingOther(me: Table, me': Table, peer: Table, peer': Table, pairs: Pairs, i: int, b: Channel, j: int)
    requires WellFormed(me) && LinkOk(me, peer, pairs, j) && SlotOk(me, peer, j) && j != i
    requires Accepts(me, me', peer, peer', i, b)
    ensures LinkOk(me', peer', pairs + {(b.sock, At(peer, b.remoteId).sock)}, j)
  {
    hide Pending, Requests;
  }

  lemma AcceptReceiving(me: Table, me': Table, peer: Table, peer': Table, pairs: Pairs, i: int, b: Channel)
    requires WellFormed(me) && WellFormed(peer) && SlotsOk(peer, me) && SlotsOk(me, peer) && BytesOk(peer, me, pairs)
    requires Accepts(me, me', peer, peer', i, b)
    requires forall t :: (t, b.sock) !in pairs && (At(peer, b.remoteId).sock, t) !in pairs
    ensures BytesOk(peer', me', pairs + {(At(peer, b.remoteId).sock, b.sock)})
  {
    hide At, Pending, Requests, WellFormed, SlotOk, PairOk, LinkOk, OpeningFresh, Matching, HeadTaken, Receives,
        Takes, Accepts, Confirms, Fails;
    var pairs' := pairs + {(At(peer, b.remoteId).sock, b.sock)};
    MatchingAdd(pairs, At(peer, b.remoteId).sock, b.sock);
    forall s, t | (s, t) in pairs' ensures PairOk(peer', me', s, t) {
      assert (s, t) in pairs ==> PairOk(peer, me, s, t);
      AcceptReceivingPair(me, me', peer, peer', pairs, i, b, s, t);
    }
    forall j ensures OpeningFresh(peer', me', pairs', j) {
      AcceptReceivingFresh(me, me', peer, peer', pairs, i, b, j);
    }
    forall j ensures LinkOk(peer', me', pairs', j) {
      AcceptReceivingLink(me, me', peer, peer', pairs, i, b, j);
    }
  }

  lemma AcceptReceivingPair(me: Table, me': Table, peer: Table, peer': Table, pairs: Pairs, i: int, b: Channel,
      s: int, t: int)
    requires WellFormed(me) && WellFormed(peer) && Accepts(me, me', peer, peer', i, b)
    requires OpeningFresh(peer, me, pairs, b.remoteId)
    requires (s, t) in pairs + {(At(peer, b.remoteId).sock, b.sock)} && ((s, t) in pairs ==> PairOk(peer, me, s, t))
    requires forall t :: (t, b.sock) !in pairs
    ensures PairOk(peer', me', s, t)
  {
    hide Pending;
  }

  lemma AcceptReceivingFresh(me: Table, me': Table, peer: Table, peer': Table, pairs: Pairs, i: int, b: Channel, j: int)
    requires WellFormed(peer) && Accepts(me, me', peer, peer', i, b) && OpeningFresh(peer, me, pairs, j)
    ensures OpeningFresh(peer', me', pairs + {(At(peer, b.remoteId).sock, b.sock)}, j)
  {
    hide Pending;
  }

  lemma AcceptReceivingLink(me: Table, me': Table, peer: Table, peer': Table, pairs: Pairs, i: int, b: Channel, j: int)
    requires WellFormed(me) && LinkOk(peer, me, pairs, j) && SlotOk(peer, me, j) && SlotOk(peer, me, b.remoteId)
    requires Accepts(me, me', peer, peer', i, b) && OpeningFresh(peer, me, pairs, b.remoteId)
    ensures LinkOk(peer', me', pairs + {(At(peer, b.remoteId).sock, b.sock)}, j)
  {
    if j == b.remoteId {
      hide Pending, Requests, At;
    } else {
      AcceptElsewhere(me, me', peer, peer', pairs, i, b, j);
    }
  }

  /** Another channel of the peer is not connected to the new one. */
  lemma AcceptElsewhere(me: Table, me': Table, peer: Table, peer': Table, pairs: Pairs, i: int, b: Channel, j: int)
    requires LinkOk(peer, me, pairs, j) && SlotOk(peer, me, j) && j != b.remoteId
    requires Accepts(me, me', peer, peer', i, b)
    ensures LinkOk(peer', me', pairs + {(At(peer, b.remoteId).sock, b.sock)}, j)
  {
    hide Pending, Requests, At, Flow, Payload, Consistent, Blank;
    var own, q := At(peer, j), Pending(me.wire, j);
    assert At(peer', j) == own && Pending(me'.wire, j) == q;
    var r := Partner(own, q);
    if r == i {
      assert !Linked(j, own, q, b, Pending(peer'.wire, i));
    } else {
      assert At(me', r) == At(me, r) && Pending(peer'.wire, r) == Pending(peer.wire, r);
      hide Linked, ViewOk;
    }
  }

  // ---------- a confirmation or refusal arrives ----------

  ghost predicate Confirms(me: Table, me': Table, peer: Table, peer': Table, i: int, k: int) {
    && peer.wire != [] && peer.wire[0] == OpenConfirmation(i, k) && peer' == peer.(wire := peer.wire[1..])
    && Replaces(me, me', i, At(me, i).(remoteId := k, kind := Open))
    && me'.wire == me.wire && me'.sockets == me.sockets
  }

  lemma ConfirmsTakesHead(me: Table, me': Table, peer: Table, peer': Table, i: int, k: int)
    requires Confirms(me, me', peer, peer', i, k)
    ensures HeadTaken(peer, peer', i)
  {
    PendingReceiveAll(peer.wire);
    SameSlots(peer, peer');
  }

  lemma ConfirmationBytes(me: Table, me': Table, peer: Table, peer': Table, pairs: Pairs, i: int, k: int)
    requires Good(me, peer, pairs) && WellFormed(me') && Confirms(me, me', peer, peer', i, k)
    ensures Good(me', peer', pairs)
  {
    hide At, Pending, Requests, WellFormed, SlotsOk, BytesOk, Swap, HeadTaken;
    ConfirmationUpdate(me, me', peer, peer', i, k);
    AnsweredWellFormed(peer, peer');
    ConfirmsTakesHead(me, me', peer, peer', i, k);
    ConfirmationSending(me, me', peer, peer', pairs, i, k);
    ConfirmationReceiving(me, me', peer, peer', Swap(pairs), i, k);
  }

  lemma ConfirmationSending(me: Table, me': Table, peer: Table, peer': Table, pairs: Pairs, i: int, k: int)
    requires SlotsOk(me, peer) && BytesOk(me, peer, pairs)
    requires Confirms(me, me', peer, peer', i, k) && HeadTaken(peer, peer', i)
    ensures BytesOk(me', peer', pairs)
  {
    hide At, Pending, Requests, WellFormed, SlotOk, PairOk, LinkOk, OpeningFresh, Matching, HeadTaken, Receives,
        Takes, Accepts, Confirms, Fails;
    assert SlotOk(me, peer, i);
    forall s, t | (s, t) in pairs ensures PairOk(me', peer', s, t) {
      ConfirmationPair(me, me', peer, peer', i, k, s, t);
    }
    forall j ensures LinkOk(me', peer', pairs, j) && OpeningFresh(me', peer', pairs, j) {
      ConfirmationSendingSlot(me, me', peer, peer', pairs, i, k, j);
    }
  }

  lemma ConfirmationPair(me: Table, me': Table, peer: Table, peer': Table, i: int, k: int, s: int, t: int)
    requires SlotOk(me, peer, i) && Confirms(me, me', peer, peer', i, k) && HeadTaken(peer, peer', i)
    ensures PairOk(me, peer, s, t) ==> PairOk(me', peer', s, t)
    ensures PairOk(peer, me, s, t) ==> PairOk(peer', me', s, t)
  {
    hide At, Pending, Requests, Flow;
    assert Pending(peer.wire, i) != [];
  }

  lemma ConfirmationSendingSlot(me: Table, me': Table, peer: Table, peer': Table, pairs: Pairs, i: int, k: int, j: int)
    requires SlotOk(me, peer, i) && LinkOk(me, peer, pairs, j) && OpeningFresh(me, peer, pairs, j)
    requires Confirms(me, me', peer, peer', i, k) && HeadTaken(peer, peer', i)
    ensures LinkOk(me', peer', pairs, j) && OpeningFresh(me', peer', pairs, j)
  {
    hide At, Pending, Requests;
  }

  lemma ConfirmationReceiving(me: Table, me': Table, peer: Table, peer': Table, pairs: Pairs, i: int, k: int)
    requires SlotsOk(peer, me) && SlotsOk(me, peer) && BytesOk(peer, me, pairs)
    requires Confirms(me, me', peer, peer', i, k) && HeadTaken(peer, peer', i)
    ensures BytesOk(peer', me', pairs)
  {
    hide At, Pending, Requests, WellFormed, SlotOk, PairOk, LinkOk, OpeningFresh, Matching, HeadTaken, Receives,
        Takes, Accepts, Confirms, Fails;
    assert SlotOk(me, peer, i);
    forall s, t | (s, t) in pairs ensures PairOk(peer', me', s, t) {
      ConfirmationPair(me, me', peer, peer', i, k, s, t);
    }
    forall j ensures OpeningFresh(peer', me', pairs, j) {
      ConfirmationReceivingFresh(me, me', peer, peer', pairs, i, k, j);
    }
    forall j ensures LinkOk(peer', me', pairs, j) {
      assert SlotOk(peer, me, j);
      ConfirmationLink(me, me', peer, peer', pairs, i, k, j);
    }
  }

  lemma ConfirmationReceivingFresh(me: Table, me': Table, peer: Table, peer': Table, pairs: Pairs, i: int, k: int,
      j: int)
    requires OpeningFresh(peer, me, pairs, j) && Confirms(me, me', peer, peer', i, k) && HeadTaken(peer, peer', i)
    ensures OpeningFresh(peer', me', pairs, j)
  {
    hide At, Pending;
  }

  /** A confirmation finds its channel opening, and the channel that sent it open. */
  lemma ConfirmationAwaited(me: Table, peer: Table, i: int, k: int)
    requires SlotOk(me, peer, i) && Pending(peer.wire, i) != [] && Pending(peer.wire, i)[0] == OpenConfirmation(i, k)
    ensures At(me, i).kind == Opening && At(peer, k).kind == Open && At(peer, k).remoteId == i
  {
    hide At, Pending, Requests;
  }

  lemma ConfirmationLink(me: Table, me': Table, peer: Table, peer': Table, pairs: Pairs, i: int, k: int, j: int)
    requires SlotOk(peer, me, j) && SlotOk(me, peer, i) && LinkOk(peer, me, pairs, j)
    requires Confirms(me, me', peer, peer', i, k) && HeadTaken(peer, peer', i)
    ensures LinkOk(peer', me', pairs, j)
  {
    hide At, Pending, Requests, Flow, Payload, Consistent, Blank, LinkOk;
    ConfirmationAwaited(me, peer, i, k);
    if j == k {
      ConfirmedLink(me, me', peer, peer', pairs, i, k);
    } else {
      UnconfirmedLink(me, me', peer, peer', pairs, i, k, j);
    }
  }

  /** Another channel of the peer is not connected to slot i, neither before nor after. */
  lemma UnconfirmedLink(me: Table, me': Table, peer: Table, peer': Table, pairs: Pairs, i: int, k: int, j: int)
    requires SlotOk(peer, me, j) && LinkOk(peer, me, pairs, j) && j != k && At(me, i).kind == Opening
    requires Confirms(me, me', peer, peer', i, k) && HeadTaken(peer, peer', i)
    ensures LinkOk(peer', me', pairs, j)
  {
    hide At, Pending, Requests, Flow, Payload, Consistent, Blank;
    var own, q := At(peer, j), Pending(me.wire, j);
    var r := Partner(own, q);
    if r == i {
      assert !Linked(j, own, q, At(me', i), Pending(peer'.wire, i));
    } else {
      assert At(me', r) == At(me, r) && Pending(peer'.wire, r) == Pending(peer.wire, r);
      hide Linked, ViewOk;
    }
  }

  lemma NoPayload(m: Message, q: seq<Message>)
    requires m.OpenConfirmation?
    ensures Payload([m] + q) == Payload(q)
  {
    PayloadConcat([m], q);
  }

  lemma ConfirmedLink(me: Table, me': Table, peer: Table, peer': Table, pairs: Pairs, i: int, k: int)
    requires LinkOk(peer, me, pairs, k)
    requires At(me, i).kind == Opening && At(peer, k).kind == Open && At(peer, k).remoteId == i
    requires Confirms(me, me', peer, peer', i, k) && HeadTaken(peer, peer', i)
    ensures LinkOk(peer', me', pairs, k)
  {
    hide At, Pending, Requests, Payload;
    var q, q' := Pending(peer.wire, i), Pending(peer'.wire, i);
    assert q == [peer.wire[0]] + q';
    NoPayload(peer.wire[0], q');
    assert Linked(k, At(peer, k), Pending(me.wire, k), At(me, i), q);
  }

  ghost predicate Fails(me: Table, me': Table, peer: Table, peer': Table, i: int) {
    && peer.wire != [] && peer.wire[0] == OpenFailure(i) && peer' == peer.(wire := peer.wire[1..])
    && Replaces(me, me', i, FREE_CHANNEL) && me'.wire == me.wire && me'.sockets == me.sockets
  }

  lemma FailsTakesHead(me: Table, me': Table, peer: Table, peer': Table, i: int)
    requires Fails(me, me', peer, peer', i)
    ensures HeadTaken(peer, peer', i)
  {
    PendingReceiveAll(peer.wire);
    SameSlots(peer, peer');
  }

  lemma FailureBytes(me: Table, me': Table, peer: Table, peer': Table, pairs: Pairs, i: int)
    requires Good(me, peer, pairs) && WellFormed(me') && Fails(me, me', peer, peer', i)
    ensures Good(me', peer', pairs)
  {
    hide At, Pending, Requests, WellFormed, SlotsOk, BytesOk, Swap, HeadTaken;
    FailureUpdate(me, me', peer, peer', i);
    AnsweredWellFormed(peer, peer');
    FailsTakesHead(me, me', peer, peer', i);
    FailureSending(me, me', peer, peer', pairs, i);
    FailureReceiving(me, me', peer, peer', Swap(pairs), i);
  }

  lemma FailureSending(me: Table, me': Table, peer: Table, peer': Table, pairs: Pairs, i: int)
    requires SlotsOk(me, peer) && BytesOk(me, peer, pairs)
    requires Fails(me, me', peer, peer', i) && HeadTaken(peer, peer', i)
    ensures BytesOk(me', peer', pairs)
  {
    hide At, Pending, Requests, WellFormed, SlotOk, PairOk, LinkOk, OpeningFresh, Matching, HeadTaken, Receives,
        Takes, Accepts, Confirms, Fails;
    assert SlotOk(me, peer, i);
    forall s, t | (s, t) in pairs ensures PairOk(me', peer', s, t) {
      FailurePair(me, me', peer, peer', i, s, t);
    }
    forall j ensures LinkOk(me', peer', pairs, j) && OpeningFresh(me', peer', pairs, j) {
      FailureSendingSlot(me, me', peer, peer', pairs, i, j);
    }
  }

  lemma FailurePair(me: Table, me': Table, peer: Table, peer': Table, i: int, s: int, t: int)
    requires Fails(me, me', peer, peer', i) && HeadTaken(peer, peer', i)
    ensures PairOk(me, peer, s, t) ==> PairOk(me', peer', s, t)
    ensures PairOk(peer, me, s, t) ==> PairOk(peer', me', s, t)
  {
    hide At, Pending;
  }

  lemma FailureSendingSlot(me: Table, me': Table, peer: Table, peer': Table, pairs: Pairs, i: int, j: int)
    requires SlotOk(me, peer, i) && LinkOk(me, peer, pairs, j) && OpeningFresh(me, peer, pairs, j)
    requires Fails(me, me', peer, peer', i) && HeadTaken(peer, peer', i)
    ensures LinkOk(me', peer', pairs, j) && OpeningFresh(me', peer', pairs, j)
  {
    hide At, Pending, Requests;
  }

  lemma FailureReceiving(me: Table, me': Table, peer: Table, peer': Table, pairs: Pairs, i: int)
    requires SlotsOk(peer, me) && SlotsOk(me, peer) && BytesOk(peer, me, pairs)
    requires Fails(me, me', peer, peer', i) && HeadTaken(peer, peer', i)
    ensures BytesOk(peer', me', pairs)
  {
    hide At, Pending, Requests, WellFormed, SlotOk, PairOk, LinkOk, OpeningFresh, Matching, HeadTaken, Receives,
        Takes, Accepts, Confirms, Fails;
    assert SlotOk(me, peer, i);
    forall s, t | (s, t) in pairs ensures PairOk(peer', me', s, t) {
      FailurePair(me, me', peer, peer', i, s, t);
    }
    forall j ensures LinkOk(peer', me', pairs, j) && OpeningFresh(peer', me', pairs, j) {
      assert SlotOk(peer, me, j);
      FailureReceivingSlot(me, me', peer, peer', pairs, i, j);
    }
  }

  lemma FailureReceivingSlot(me: Table, me': Table, peer: Table, peer': Table, pairs: Pairs, i: int, j: int)
    requires SlotOk(me, peer, i) && SlotOk(peer, me, j) && LinkOk(peer, me, pairs, j) && OpeningFresh(peer, me,
        pairs, j)
    requires Fails(me, me', peer, peer', i) && HeadTaken(peer, peer', i)
    ensures LinkOk(peer', me', pairs, j) && OpeningFresh(peer', me', pairs, j)
  {
    hide At, Pending, Requests;
  }
}
