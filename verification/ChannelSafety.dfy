/**
 Two endpoints joined by two FIFO links.  The invariant relates each slot to the
 messages travelling towards it and to the slot at the other end; every step keeps it,
 and under it no handler can disconnect.
 */
module ChannelSafety {
  import opened Bytes
  import opened Channels

  // ---------- messages in flight ----------

  predicate Targets(m: Message, i: int) { !m.PortOpen? && m.id == i }

  /** The messages of a link that are addressed to slot i, in order. */
  function Pending(wire: seq<Message>, i: int): seq<Message> {
    if wire == [] then []
    else (if Targets(wire[0], i) then [wire[0]] else []) + Pending(wire[1..], i)
  }

  predicate IsRequest(m: Message, i: int) { m.PortOpen? && m.sender == i }

  /** The number of open requests for slot i of the sender. */
  function Requests(wire: seq<Message>, i: int): nat {
    if wire == [] then 0
    else (if IsRequest(wire[0], i) then 1 else 0) + Requests(wire[1..], i)
  }

  lemma {:induction false} PendingSend(wire: seq<Message>, m: Message, i: int)
    ensures Pending(wire + [m], i) == if Targets(m, i) then Pending(wire, i) + [m] else Pending(wire, i)
  {
    hide Targets;
    if wire == [] {
      assert wire + [m] == [m] && [m][1..] == [];
      assert Pending([], i) == [];
    } else {
      PendingSend(wire[1..], m, i);
      assert (wire + [m])[0] == wire[0] && (wire + [m])[1..] == wire[1..] + [m];
      var first := if Targets(wire[0], i) then [wire[0]] else [];
      assert first + (Pending(wire[1..], i) + [m]) == (first + Pending(wire[1..], i)) + [m];
    }
  }

  lemma {:induction false} RequestsSend(wire: seq<Message>, m: Message, i: int)
    ensures Requests(wire + [m], i) == Requests(wire, i) + (if IsRequest(m, i) then 1 else 0)
  {
    if wire == [] {
      assert wire + [m] == [m] && [m][1..] == [];
      assert Requests([], i) == 0;
    } else {
      RequestsSend(wire[1..], m, i);
      assert (wire + [m])[0] == wire[0] && (wire + [m])[1..] == wire[1..] + [m];
    }
  }

  lemma PendingSendAll(wire: seq<Message>, m: Message)
    ensures forall i :: Pending(wire + [m], i) == if Targets(m, i) then Pending(wire, i) + [m] else Pending(wire, i)
    ensures forall i :: Requests(wire + [m], i) == Requests(wire, i) + (if IsRequest(m, i) then 1 else 0)
  {
    forall i
      ensures Pending(wire + [m], i) == if Targets(m, i) then Pending(wire, i) + [m] else Pending(wire, i)
      ensures Requests(wire + [m], i) == Requests(wire, i) + (if IsRequest(m, i) then 1 else 0)
    {
      PendingSend(wire, m, i);
      RequestsSend(wire, m, i);
    }
  }

  lemma PendingReceiveAll(wire: seq<Message>)
    requires wire != []
    ensures forall i :: Pending(wire, i) == if Targets(wire[0], i) then [wire[0]] + Pending(wire[1..], i) else
        Pending(wire[1..], i)
    ensures forall i :: Requests(wire, i) == (if IsRequest(wire[0], i) then 1 else 0) + Requests(wire[1..], i)
  {
  }

  /** Receiving the messages q one after the other takes the receiver's EOF and close
      bits from (er, cr) to (es, cs), with no data after EOF and nothing received twice. */
  ghost predicate Flow(q: seq<Message>, er: bool, cr: bool, es: bool, cs: bool) {
    if q == [] then er == es && cr == cs
    else match q[0]
      case Data(_, _) => !er && Flow(q[1..], er, cr, es, cs)
      case InputEof(_) => !er && Flow(q[1..], true, cr, es, cs)
      case OutputClosed(_) => !cr && Flow(q[1..], er, true, es, cs)
      case _ => false
  }

  /** Flows compose: what the sender adds continues from the sender's own bits. */
  lemma {:induction false} FlowSend(q: seq<Message>, m: Message, er: bool, cr: bool, es: bool, cs: bool, es': bool,
      cs': bool)
    requires Flow(q, er, cr, es, cs) && Flow([m], es, cs, es', cs')
    ensures Flow(q + [m], er, cr, es', cs')
  {
    if q == [] {
      assert q + [m] == [m];
    } else {
      assert (q + [m])[1..] == q[1..] + [m];
      match q[0]
      case Data(_, _) => FlowSend(q[1..], m, er, cr, es, cs, es', cs');
      case InputEof(_) => FlowSend(q[1..], m, true, cr, es, cs, es', cs');
      case OutputClosed(_) => FlowSend(q[1..], m, er, true, es, cs, es', cs');
    }
  }

  /** A receiver with both bits set has nothing left to receive. */
  lemma {:induction false} FlowMonotone(q: seq<Message>, er: bool, cr: bool, es: bool, cs: bool)
    requires Flow(q, er, cr, es, cs)
    ensures er ==> es
    ensures cr ==> cs
    ensures er && cr ==> q == []
  {
    if q != [] {
      match q[0]
      case Data(_, _) => FlowMonotone(q[1..], er, cr, es, cs);
      case InputEof(_) => FlowMonotone(q[1..], true, cr, es, cs);
      case OutputClosed(_) => FlowMonotone(q[1..], er, true, es, cs);
    }
  }

  /** Receiving the head of a flow leaves the rest of it. */
  lemma FlowReceive(q: seq<Message>, er: bool, cr: bool)
    requires q != []
    ensures forall es, cs :: Flow(q, er, cr, es, cs) ==>
              && (q[0].Data? ==> !er) && (q[0].InputEof? ==> !er) && (q[0].OutputClosed? ==> !cr)
              && Flow(q[1..], er || q[0].InputEof?, cr || q[0].OutputClosed?, es, cs)
  {
  }

  lemma FlowOne(m: Message, es: bool, cs: bool)
    requires m.Data? || m.InputEof? || m.OutputClosed?
    requires if m.OutputClosed? then !cs else !es
    ensures Flow([m], es, cs, es || m.InputEof?, cs || m.OutputClosed?)
  {
    assert [m][1..] == [];
  }

  // ---------- the invariant ----------

  /** The channel in slot i, or a free one where there is none. */
  function At(t: Table, i: int): Channel {
    if t.Live(i) then t.channels[i] else FREE_CHANNEL
  }

  /** The slot at the other end that a channel with incoming messages q belongs to. */
  function Partner(own: Channel, q: seq<Message>): int {
    if own.kind == Open then own.remoteId
    else if q != [] && q[0].OpenConfirmation? then q[0].sender
    else -1
  }

  /** The bits of an open channel agree with each other and with its buffers. */
  ghost predicate Consistent(ch: Channel) {
    var st := ch.status;
    && (st.eofSent ==> st.inputClosed && ch.input == [])
    && (st.closeSent <==> st.outputClosed)
    && (st.outputClosed ==> ch.output == [])
    && (st.closeReceived ==> st.inputClosed && ch.input == [])
  }

  /** Nothing has happened on the channel yet. */
  ghost predicate Blank(ch: Channel) { ch.status == NO_STATUS && ch.input == [] && ch.output == [] }

  /** What is known of slot i holding `own`: q is on its way to it, req of its open
      requests are unanswered, `other` is its partner and `back` on its way to that.
      An open channel is paired with the channel it names, or that channel still waits
      for the confirmation, or it is gone and this end has sent everything it ever will. */
  ghost predicate ViewOk(i: int, own: Channel, q: seq<Message>, req: nat, other: Channel, back: seq<Message>) {
    var st := own.status;
    match own.kind
    case Opening =>
      && Blank(own)
      && (|| (req == 1 && q == [])
          || (req == 0 && q == [OpenFailure(i)])
          || (&& req == 0 && q != [] && q[0] == OpenConfirmation(i, Partner(own, q))
              && other.kind == Open && other.remoteId == i && back == []
              && !other.status.eofReceived && !other.status.closeReceived
              && Flow(q[1..], false, false, other.status.eofSent, other.status.closeSent)))
    case Open =>
      && req == 0 && Consistent(own)
      && if other.kind == Open && other.remoteId == i then
           Flow(q, st.eofReceived, st.closeReceived, other.status.eofSent, other.status.closeSent)
         else if other.kind == Opening && back != [] && back[0] == OpenConfirmation(own.remoteId, i) then
           q == [] && !st.eofReceived && !st.closeReceived
         else
           st.eofSent && st.closeSent && Flow(q, st.eofReceived, st.closeReceived, true, true)
    case _ => q == [] && req == 0
  }

  ghost predicate SlotOk(me: Table, peer: Table, i: int) {
    var own, q := At(me, i), Pending(peer.wire, i);
    var k := Partner(own, q);
    ViewOk(i, own, q, Requests(me.wire, i), At(peer, k), Pending(me.wire, k))
  }

  ghost predicate SlotsOk(me: Table, peer: Table) {
    forall i :: SlotOk(me, peer, i)
  }

  ghost predicate Inv(me: Table, peer: Table) {
    WellFormed(me) && WellFormed(peer) && SlotsOk(me, peer) && SlotsOk(peer, me)
  }

  // ---------- elementary steps ----------

  lemma SameSlots(t: Table, t': Table)
    requires t'.channels == t.channels
    ensures forall j :: At(t', j) == At(t, j)
  {
  }

  /** me' is me with slot i holding ch. */
  ghost predicate Replaces(me: Table, me': Table, i: int, ch: Channel) {
    forall j :: At(me', j) == if j == i then ch else At(me, j)
  }

  /** An open channel changes fields the other end does not see. */
  lemma LocalUpdate(me: Table, me': Table, peer: Table, i: int, b: Channel)
    requires SlotsOk(me, peer) && SlotsOk(peer, me)
    requires At(me, i).kind == Open && Replaces(me, me', i, b) && me'.wire == me.wire
    requires var a := At(me, i);
             && b.kind == Open && b.remoteId == a.remoteId && Consistent(b)
             && b.status.eofSent == a.status.eofSent && b.status.closeSent == a.status.closeSent
             && b.status.eofReceived == a.status.eofReceived && b.status.closeReceived == a.status.closeReceived
    ensures SlotsOk(me', peer) && SlotsOk(peer, me')
  {
    hide At, Pending, Requests, WellFormed;
    forall j ensures SlotOk(me', peer, j) {
      assert SlotOk(me, peer, j);
    }
    forall j ensures SlotOk(peer, me', j) {
      assert SlotOk(peer, me, j);
    }
  }

  /** An open channel sends one data, EOF or close message m and becomes b. */
  ghost predicate Sends(a: Channel, b: Channel, m: Message) {
    && Targets(m, a.remoteId) && a.kind == Open
    && b.kind == Open && b.remoteId == a.remoteId && Consistent(b)
    && b.status.eofReceived == a.status.eofReceived && b.status.closeReceived == a.status.closeReceived
    && Flow([m], a.status.eofSent, a.status.closeSent, b.status.eofSent, b.status.closeSent)
  }

  lemma SendUpdate(me: Table, me': Table, peer: Table, i: int, b: Channel, m: Message)
    requires SlotsOk(me, peer) && SlotsOk(peer, me)
    requires Sends(At(me, i), b, m) && Replaces(me, me', i, b) && me'.wire == me.wire + [m]
    ensures SlotsOk(me', peer) && SlotsOk(peer, me')
  {
    hide At, Pending, Requests, WellFormed;
    PendingSendAll(me.wire, m);
    var k := At(me, i).remoteId;
    assert SlotOk(me, peer, i);
    forall j ensures SlotOk(me', peer, j) {
      assert SlotOk(me, peer, j);
    }
    forall j ensures SlotOk(peer, me', j) {
      assert SlotOk(peer, me, j);
      if j == k {
        SendToPartner(i, k, At(me, i), b, m, Pending(peer.wire, i), At(peer, k), Pending(me.wire, k),
                      Requests(me.wire, i), Requests(peer.wire, k));
      }
    }
  }

  lemma SendToPartner(i: int, k: int, a: Channel, b: Channel, m: Message, q: seq<Message>, other: Channel,
      back: seq<Message>, req: nat, req': nat)
    requires Sends(a, b, m) && a.remoteId == k
    requires ViewOk(i, a, q, req, other, back)
    requires Partner(other, back) == i ==> ViewOk(k, other, back, req', a, q)
    ensures Partner(other, back) == Partner(other, back + [m]) == i
    ensures ViewOk(k, other, back + [m], req', b, q)
  {
    if other.kind == Open && other.remoteId == i {
      FlowSend(back, m, other.status.eofReceived, other.status.closeReceived,
               a.status.eofSent, a.status.closeSent, b.status.eofSent, b.status.closeSent);
    } else if other.kind == Opening && back != [] && back[0] == OpenConfirmation(k, i) {
      FlowSend(back[1..], m, false, false, a.status.eofSent, a.status.closeSent, b.status.eofSent, b.status.closeSent);
      assert (back + [m])[1..] == back[1..] + [m];
    } else {
      assert false;
    }
  }

  /** A channel with all six bits set is freed. */
  lemma FreeUpdate(me: Table, me': Table, peer: Table, i: int)
    requires SlotsOk(me, peer) && SlotsOk(peer, me)
    requires At(me, i).kind == Open && At(me, i).status.Terminates()
    requires Replaces(me, me', i, FREE_CHANNEL) && me'.wire == me.wire
    ensures SlotsOk(me', peer) && SlotsOk(peer, me')
  {
    hide At, Pending, Requests, WellFormed;
    assert SlotOk(me, peer, i);
    var q := Pending(peer.wire, i);
    var other := At(peer, At(me, i).remoteId);
    if other.kind == Open && other.remoteId == i {
      FlowMonotone(q, true, true, other.status.eofSent, other.status.closeSent);
    } else if q != [] {
      FlowMonotone(q, true, true, true, true);
    }
    forall j ensures SlotOk(me', peer, j) {
      assert SlotOk(me, peer, j);
    }
    forall j ensures SlotOk(peer, me', j) {
      assert SlotOk(peer, me, j);
    }
  }

  /** An open channel receives the data, EOF or close message at the head of the link. */
  lemma ReceiveUpdate(me: Table, me': Table, peer: Table, peer': Table, i: int, b: Channel)
    requires SlotsOk(me, peer) && SlotsOk(peer, me)
    requires At(me, i).kind == Open && Replaces(me, me', i, b) && me'.wire == me.wire
    requires peer.wire != [] && peer' == peer.(wire := peer.wire[1..]) && Targets(peer.wire[0], i)
    requires var a := At(me, i);
             && b.kind == Open && b.remoteId == a.remoteId && Consistent(b)
             && b.status.eofSent == a.status.eofSent && b.status.closeSent == a.status.closeSent
             && b.status.eofReceived == (a.status.eofReceived || peer.wire[0].InputEof?)
             && b.status.closeReceived == (a.status.closeReceived || peer.wire[0].OutputClosed?)
    ensures SlotsOk(me', peer') && SlotsOk(peer', me')
  {
    hide At, Pending, Requests, WellFormed;
    PendingReceiveAll(peer.wire);
    var q, q' := Pending(peer.wire, i), Pending(peer'.wire, i);
    assert q[0] == peer.wire[0] && q[1..] == q';
    var a := At(me, i).status;
    FlowReceive(q, a.eofReceived, a.closeReceived);
    SameSlots(peer, peer');
    forall j ensures SlotOk(me', peer', j) {
      assert SlotOk(me, peer, j);
    }
    assert SlotOk(me, peer, i);
    forall j ensures SlotOk(peer', me', j) {
      assert SlotOk(peer, me, j);
    }
  }

  // ---------- opening a channel ----------

  /** A free slot takes a listener, or a channel whose open request is sent. */
  lemma OpeningUpdate(me: Table, me': Table, peer: Table, i: int, b: Channel, m: Message)
    requires SlotsOk(me, peer) && SlotsOk(peer, me)
    requires At(me, i).kind == Free && Replaces(me, me', i, b)
    requires || (b.kind == Listener && me'.wire == me.wire)
             || (b.kind == Opening && Blank(b) && IsRequest(m, i) && me'.wire == me.wire + [m])
    ensures SlotsOk(me', peer) && SlotsOk(peer, me')
  {
    hide At, Pending, Requests, WellFormed;
    PendingSendAll(me.wire, m);
    assert SlotOk(me, peer, i);
    forall j ensures SlotOk(me', peer, j) {
      assert SlotOk(me, peer, j);
    }
    forall j ensures SlotOk(peer, me', j) {
      assert SlotOk(peer, me, j);
    }
  }

  /** The open request at the head of the link is answered: refused, or confirmed after a
      free slot i took the new channel b. */
  lemma AnswerUpdate(me: Table, me': Table, peer: Table, peer': Table, i: int, b: Channel, accept: bool)
    requires SlotsOk(me, peer) && SlotsOk(peer, me)
    requires peer.wire != [] && peer.wire[0].PortOpen? && peer' == peer.(wire := peer.wire[1..])
    requires At(me, i).kind == Free && i >= 0
    requires var r := peer.wire[0].sender;
             if accept
             then Replaces(me, me', i, b) && b.kind == Open && Blank(b) && b.remoteId == r
                  && me'.wire == me.wire + [OpenConfirmation(r, i)]
             else Replaces(me, me', i, FREE_CHANNEL) && me'.wire == me.wire + [OpenFailure(r)]
    ensures SlotsOk(me', peer') && SlotsOk(peer', me')
  {
    hide At, Pending, Requests, WellFormed;
    var r := peer.wire[0].sender;
    PendingSendAll(me.wire, if accept then OpenConfirmation(r, i) else OpenFailure(r));
    PendingReceiveAll(peer.wire);
    SameSlots(peer, peer');
    assert SlotOk(peer, me, r);
    assert SlotOk(me, peer, i);
    forall j ensures SlotOk(me', peer', j) {
      assert SlotOk(me, peer, j);
    }
    forall j ensures SlotOk(peer', me', j) {
      assert SlotOk(peer, me, j);
    }
  }

  /** The confirmation at the head of the link opens the channel. */
  lemma ConfirmationUpdate(me: Table, me': Table, peer: Table, peer': Table, i: int, k: int)
    requires SlotsOk(me, peer) && SlotsOk(peer, me)
    requires peer.wire != [] && peer.wire[0] == OpenConfirmation(i, k) && peer' == peer.(wire := peer.wire[1..])
    requires Replaces(me, me', i, At(me, i).(remoteId := k, kind := Open)) && me'.wire == me.wire
    ensures SlotsOk(me', peer') && SlotsOk(peer', me')
  {
    hide At, Pending, Requests, WellFormed;
    PendingReceiveAll(peer.wire);
    SameSlots(peer, peer');
    assert SlotOk(me, peer, i);
    assert SlotOk(peer, me, k);
    forall j ensures SlotOk(me', peer', j) {
      assert SlotOk(me, peer, j);
    }
    forall j ensures SlotOk(peer', me', j) {
      assert SlotOk(peer, me, j);
    }
  }

  /** The refusal at the head of the link frees the slot. */
  lemma FailureUpdate(me: Table, me': Table, peer: Table, peer': Table, i: int)
    requires SlotsOk(me, peer) && SlotsOk(peer, me)
    requires peer.wire != [] && peer.wire[0] == OpenFailure(i) && peer' == peer.(wire := peer.wire[1..])
    requires Replaces(me, me', i, FREE_CHANNEL) && me'.wire == me.wire
    ensures SlotsOk(me', peer') && SlotsOk(peer', me')
  {
    hide At, Pending, Requests, WellFormed;
    PendingReceiveAll(peer.wire);
    SameSlots(peer, peer');
    assert SlotOk(me, peer, i);
    forall j ensures SlotOk(me', peer', j) {
      assert SlotOk(me, peer, j);
    }
    forall j ensures SlotOk(peer', me', j) {
      assert SlotOk(peer, me, j);
    }
  }
}
