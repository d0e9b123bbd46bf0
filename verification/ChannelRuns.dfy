/**
 Whole handlers, loop passes and runs of the two-endpoint system.
 */
module ChannelRuns {
  import opened Bytes
  import opened Channels
  import opened ChannelSafety
  import opened ChannelBytes

  /** No open channel has all six bits set: it would have been freed. */
  ghost predicate Settled(t: Table) {
    forall i :: At(t, i).kind == Open ==> !At(t, i).status.Terminates()
  }

  ghost predicate SettledExcept(t: Table, i: int) {
    forall j :: j != i && At(t, j).kind == Open ==> !At(t, j).status.Terminates()
  }

  /** What every handler keeps. */
  ghost predicate AllGood(me: Table, peer: Table, pairs: Pairs) {
    Good(me, peer, pairs) && Settled(me) && Settled(peer)
  }

  lemma PutAt(t: Table, t': Table, i: int, ch: Channel)
    requires t.Live(i) && ch.kind != Free && t'.channels == t.channels[i := ch]
    ensures Replaces(t, t', i, ch)
    ensures Settled(t) ==> SettledExcept(t', i)
    ensures Settled(t) && !ch.status.Terminates() ==> Settled(t')
  {
    assert forall j :: At(t', j) == if j == i then ch else At(t, j);
  }

  lemma FreeAt(t: Table, i: int)
    requires t.Live(i)
    ensures Replaces(t, ChannelFree(t, i), i, FREE_CHANNEL)
    ensures SettledExcept(t, i) ==> Settled(ChannelFree(t, i))
  {
    var t' := ChannelFree(t, i);
    assert forall j :: At(t', j) == if j == i then FREE_CHANNEL else At(t, j);
  }

  lemma AllocateAt(t: Table, kind: Kind, remoteId: int, isX: bool, service: Service)
    requires WellFormed(t) && kind != Free
    ensures Slot(t) < |Grow(t).channels|
    ensures WellFormed(Allocate(t, kind, remoteId, isX, service))
    ensures Takes(t, Allocate(t, kind, remoteId, isX, service), Slot(t),
                  Channel(kind, |t.sockets|, remoteId, NO_STATUS, [], [], isX, service))
    ensures Settled(t) ==> Settled(Allocate(t, kind, remoteId, isX, service))
  {
    AllocateFindsSlot(t);
    AllocateWellFormed(t, kind, remoteId, isX, service);
    var t' := Allocate(t, kind, remoteId, isX, service);
    var ch := Channel(kind, |t.sockets|, remoteId, NO_STATUS, [], [], isX, service);
    assert forall j :: At(t', j) == if j == Slot(t) then ch else At(t, j);
  }

  lemma TailSettledAt(t: Table, wire: seq<Message>)
    ensures forall j :: At(t.(wire := wire), j) == At(t, j)
  {
  }

  /** The receiver took the head of the link; nothing else changed for the peer. */
  lemma TailSettled(peer: Table, wire: seq<Message>)
    requires Settled(peer)
    ensures Settled(peer.(wire := wire))
    ensures forall j :: At(peer.(wire := wire), j) == At(peer, j)
  {
    assert forall j :: At(peer.(wire := wire), j) == At(peer, j);
  }

  // ---------- one handler ----------

  /** What a step on an open channel needs to know of its own end. */
  lemma GoodHere(me: Table, peer: Table, pairs: Pairs, i: int)
    requires Good(me, peer, pairs) && At(me, i).kind == Open
    ensures WellFormed(me) && me.Live(i) && At(me, i) == me.channels[i]
    ensures Consistent(At(me, i)) && 0 <= At(me, i).sock < |me.sockets|
  {
    assert SlotOk(me, peer, i);
  }

  lemma TerminationKeeps(me: Table, peer: Table, pairs: Pairs, i: int)
    requires Good(me, peer, pairs) && SettledExcept(me, i) && At(me, i).kind == Open
    ensures Good(CheckTermination(me, i), peer, pairs) && Settled(CheckTermination(me, i))
  {
    if me.channels[i].status.Terminates() {
      FreeWellFormed(me, i);
      FreeAt(me, i);
      FreeBytes(me, ChannelFree(me, i), peer, pairs, i);
    }
  }

  lemma SendIeofKeeps(me: Table, peer: Table, pairs: Pairs, i: int)
    requires Good(me, peer, pairs) && Settled(me) && At(me, i).kind == Open
    requires At(me, i).status.inputClosed && At(me, i).input == []
    ensures Good(SendIeof(me, i), peer, pairs) && Settled(SendIeof(me, i))
  {
    hide Good, Settled, SettledExcept;
    GoodHere(me, peer, pairs, i);
    var ch := me.channels[i];
    if !ch.status.eofSent {
      var b := ch.(status := ch.status.(eofSent := true));
      var m := InputEof(ch.remoteId);
      var me' := me.SetStatus(i, b.status).Send(m);
      FlowOne(m, false, ch.status.closeSent);
      PutWellFormed(me, i, b);
      assert Payload([m]) == [];
      PutAt(me, me', i, b);
      OwnStepBytes(me, me', peer, pairs, i, b, [m]);
      TerminationKeeps(me', peer, pairs, i);
    }
  }

  lemma CloseInputKeeps(me: Table, peer: Table, pairs: Pairs, i: int)
    requires Good(me, peer, pairs) && Settled(me) && At(me, i).kind == Open
    ensures Good(CloseInput(me, i), peer, pairs) && Settled(CloseInput(me, i))
  {
    hide Good, Settled, SettledExcept;
    GoodHere(me, peer, pairs, i);
    var ch := me.channels[i];
    if !ch.status.inputClosed {
      var b := ch.(status := ch.status.(inputClosed := true));
      PutWellFormed(me, i, b);
      PutAt(me, CloseInput(me, i), i, b);
      OwnStepBytes(me, CloseInput(me, i), peer, pairs, i, b, []);
    }
  }

  /** Closing the output; `drained` marks the close that follows EOF and an empty buffer. */
  lemma CloseOutputKeeps(me: Table, peer: Table, pairs: Pairs, i: int, drained: bool)
    requires Good(me, peer, pairs) && Settled(me) && At(me, i).kind == Open
    requires drained ==> At(me, i).status.eofReceived && At(me, i).output == [] && !At(me, i).status.outputClosed
    ensures var s := me.channels[i].sock;
            var me1 := if drained then me.(sockets := me.sockets[s := me.sockets[s].(drained := true)]) else me;
            Good(CloseOutput(me1, i), peer, pairs) && Settled(CloseOutput(me1, i))
  {
    hide Good, Settled, SettledExcept;
    GoodHere(me, peer, pairs, i);
    var ch := me.channels[i];
    var s := ch.sock;
    var me1 := if drained then me.(sockets := me.sockets[s := me.sockets[s].(drained := true)]) else me;
    if !ch.status.outputClosed {
      var b := ch.(status := ch.status.(outputClosed := true, closeSent := true), output := []);
      var m := OutputClosed(ch.remoteId);
      var me' := me1.Put(i, b).Send(m);
      PutWellFormed(me1, i, b);
      PutAt(me, me', i, b);
      FlowOne(m, ch.status.eofSent, false);
      CloseOutputStep(me, me', i, b, m);
      OwnStepBytes(me, me', peer, pairs, i, b, [m]);
      TerminationKeeps(me', peer, pairs, i);
      CloseOutputIs(me1, i, b, m);
    }
  }

  lemma CloseOutputStep(me: Table, me': Table, i: int, b: Channel, m: Message)
    requires At(me, i).kind == Open && Consistent(At(me, i)) && !At(me, i).status.outputClosed
    requires var ch := At(me, i);
             && 0 <= ch.sock < |me.sockets|
             && m == OutputClosed(ch.remoteId) && Flow([m], ch.status.eofSent, false, ch.status.eofSent, true)
             && b == ch.(status := ch.status.(outputClosed := true, closeSent := true), output := [])
             && Replaces(me, me', i, b) && me'.wire == me.wire + [m]
             && (|| me'.sockets == me.sockets
                 || (&& ch.status.eofReceived && ch.output == []
                     && me'.sockets == me.sockets[ch.sock := me.sockets[ch.sock].(drained := true)]))
    ensures OwnStep(me, me', i, b, [m])
  {
    assert Payload([m]) == [];
  }

  lemma CloseOutputIs(me: Table, i: int, b: Channel, m: Message)
    requires me.Live(i) && !me.channels[i].status.outputClosed && !me.channels[i].status.closeSent
    requires b == me.channels[i].(status := me.channels[i].status.(outputClosed := true, closeSent := true),
        output := [])
    requires m == OutputClosed(me.channels[i].remoteId)
    ensures me.Put(i, b).Send(m).Live(i)
    ensures CloseOutput(me, i) == CheckTermination(me.Put(i, b).Send(m), i)
  {
    var ch := me.channels[i];
    var t1 := me.Put(i, ch.(status := ch.status.(outputClosed := true), output := []));
    assert t1.SetStatus(i, t1.channels[i].status.(closeSent := true)).channels == me.Put(i, b).channels;
  }

  lemma ReadSomeKeeps(me: Table, peer: Table, pairs: Pairs, i: int, incoming: seq<byte>, maxPacket: nat)
    requires Good(me, peer, pairs) && Settled(me) && At(me, i).kind == Open && !At(me, i).status.inputClosed
    ensures Good(ReadSome(me, i, incoming, maxPacket), peer, pairs)
    ensures Settled(ReadSome(me, i, incoming, maxPacket))
  {
    hide Good, Settled, SettledExcept;
    GoodHere(me, peer, pairs, i);
    var ch := me.channels[i];
    var got := incoming[..Min(|incoming|, Min(16384, maxPacket / 4))];
    if |got| == 0 {
      CloseInputKeeps(me, peer, pairs, i);
    } else {
      ReadSomeWellFormed(me, i, incoming, maxPacket);
      var me' := ReadSome(me, i, incoming, maxPacket);
      var old' := me.sockets[ch.sock].read;
      assert (old' + got)[|old'|..] == got;
      assert [] + (ch.input + got) == ch.input + got;
      PutAt(me, me', i, ch.(input := ch.input + got));
      OwnStepBytes(me, me', peer, pairs, i, ch.(input := ch.input + got), []);
    }
  }

  lemma WriteSomeKeeps(me: Table, peer: Table, pairs: Pairs, i: int, room: nat)
    requires Good(me, peer, pairs) && Settled(me) && At(me, i).kind == Open && !At(me, i).status.outputClosed
    ensures Good(WriteSome(me, i, room), peer, pairs) && Settled(WriteSome(me, i, room))
  {
    hide Good, Settled, SettledExcept;
    GoodHere(me, peer, pairs, i);
    var ch := me.channels[i];
    var n := Min(room, |ch.output|);
    if n == 0 {
      CloseOutputKeeps(me, peer, pairs, i, false);
    } else {
      WriteSomeWellFormed(me, i, room);
      var w := me.sockets[ch.sock].written;
      assert w + ch.output[..n] + ch.output[n..] == w + ch.output;
      PutAt(me, WriteSome(me, i, room), i, ch.(output := ch.output[n..]));
      OwnStepBytes(me, WriteSome(me, i, room), peer, pairs, i, ch.(output := ch.output[n..]), []);
    }
  }

  lemma PollSlotKeeps(me: Table, peer: Table, pairs: Pairs, i: int, interactive: bool, maxPacket: nat)
    requires Good(me, peer, pairs) && Settled(me) && 0 <= i < |me.channels|
    ensures Good(PollSlot(me, i, interactive, maxPacket), peer, pairs)
    ensures Settled(PollSlot(me, i, interactive, maxPacket))
  {
    hide Good, Settled, SettledExcept;
    if At(me, i).kind == Open { GoodHere(me, peer, pairs, i); }
    var ch := me.channels[i];
    if ch.kind == Open {
      if |ch.input| > 0 {
        PollSlotWellFormed(me, i, interactive, maxPacket);
        var len := if interactive then Min(|ch.input|, 512) else Min(Min(|ch.input|, 8192), maxPacket / 2);
        var m := Data(ch.remoteId, ch.input[..len]);
        assert Payload([m]) == ch.input[..len];
        FlowOne(m, false, ch.status.closeSent);
        assert ch.input[..len] + ch.input[len..] == ch.input;
        PutAt(me, PollSlot(me, i, interactive, maxPacket), i, ch.(input := ch.input[len..]));
        OwnStepBytes(me, PollSlot(me, i, interactive, maxPacket), peer, pairs, i, ch.(input := ch.input[len..]), [m]);
      } else if ch.status.inputClosed {
        SendIeofKeeps(me, peer, pairs, i);
      }
    }
  }

  lemma PrepareSlotKeeps(me: Table, peer: Table, pairs: Pairs, i: int, w: Watch, maxPacket: nat)
    requires Good(me, peer, pairs) && Settled(me) && 0 <= i < |me.channels|
    ensures Good(PrepareSlot(me, i, w, maxPacket).0, peer, pairs)
    ensures Settled(PrepareSlot(me, i, w, maxPacket).0)
  {
    var ch := me.channels[i];
    if ch.kind == Open && !ch.status.outputClosed && ch.output == [] && ch.status.eofReceived {
      CloseOutputKeeps(me, peer, pairs, i, true);
    }
  }

  // ---------- messages ----------

  /** The pairs after `me` received the head of the link from `peer`. */
  function PairsAfter(me: Table, peer: Table, pairs: Pairs, m: Message, accept: bool): Pairs {
    if m.PortOpen? && accept then pairs + {(|me.sockets|, At(peer, m.sender).sock)} else pairs
  }

  lemma ReceiveIeofKeeps(me: Table, peer: Table, pairs: Pairs)
    requires AllGood(me, peer, pairs) && peer.wire != [] && peer.wire[0].InputEof?
    ensures var i := peer.wire[0].id;
            && me.Live(i) && ReceiveIeof(me, i).Done?
            && AllGood(ReceiveIeof(me, i).table, peer.(wire := peer.wire[1..]), pairs)
  {
    var i, peer' := peer.wire[0].id, peer.(wire := peer.wire[1..]);
    HeadMatches(me, peer);
    var ch := me.channels[i];
    var t1 := me.SetStatus(i, ch.status.(eofReceived := true));
    PutWellFormed(me, i, t1.channels[i]);
    var t2 := if ch.isX then CloseInput(t1, i) else t1;
    CloseInputWellFormed(t1, i);
    PutAt(me, t2, i, t2.channels[i]);
    ReceiveBytes(me, t2, peer, peer', pairs, i, t2.channels[i]);
    TerminationKeeps(t2, peer', pairs, i);
    TailSettled(peer, peer.wire[1..]);
  }

  lemma ReceiveOclosedKeeps(me: Table, peer: Table, pairs: Pairs)
    requires AllGood(me, peer, pairs) && peer.wire != [] && peer.wire[0].OutputClosed?
    ensures var i := peer.wire[0].id;
            && me.Live(i) && ReceiveOclosed(me, i).Done?
            && AllGood(ReceiveOclosed(me, i).table, peer.(wire := peer.wire[1..]), pairs)
  {
    var i, peer' := peer.wire[0].id, peer.(wire := peer.wire[1..]);
    HeadMatches(me, peer);
    var ch := me.channels[i];
    var t1 := me.Put(i, ch.(status := ch.status.(closeReceived := true), input := []));
    PutWellFormed(me, i, t1.channels[i]);
    var t2 := CloseInput(t1, i);
    CloseInputWellFormed(t1, i);
    PutAt(me, t2, i, t2.channels[i]);
    ReceiveBytes(me, t2, peer, peer', pairs, i, t2.channels[i]);
    TerminationKeeps(t2, peer', pairs, i);
    TailSettled(peer, peer.wire[1..]);
  }

  lemma InputDataKeeps(me: Table, peer: Table, pairs: Pairs)
    requires AllGood(me, peer, pairs) && peer.wire != [] && peer.wire[0].Data?
    ensures var m := peer.wire[0];
            && InputData(me, m.id, m.data).Done?
            && AllGood(InputData(me, m.id, m.data).table, peer.(wire := peer.wire[1..]), pairs)
  {
    var m, peer' := peer.wire[0], peer.(wire := peer.wire[1..]);
    var i := m.id;
    HeadMatches(me, peer);
    var me' := InputData(me, i, m.data).table;
    if !me.channels[i].status.outputClosed { PutWellFormed(me, i, me'.channels[i]); }
    PutAt(me, me', i, me'.channels[i]);
    ReceiveBytes(me, me', peer, peer', pairs, i, me'.channels[i]);
    TailSettled(peer, peer.wire[1..]);
  }

  /** A data, EOF or close message finds its channel open, without the bit it brings. */
  lemma HeadMatches(me: Table, peer: Table)
    requires SlotsOk(me, peer) && peer.wire != []
    requires var m := peer.wire[0]; m.Data? || m.InputEof? || m.OutputClosed?
    ensures var m := peer.wire[0];
            && At(me, m.id).kind == Open && Consistent(At(me, m.id))
            && (m.OutputClosed? ==> !At(me, m.id).status.closeReceived)
            && (!m.OutputClosed? ==> !At(me, m.id).status.eofReceived)
  {
    var i := peer.wire[0].id;
    PendingReceiveAll(peer.wire);
    assert SlotOk(me, peer, i);
    assert Pending(peer.wire, i)[0] == peer.wire[0];
    FlowReceive(Pending(peer.wire, i), At(me, i).status.eofReceived, At(me, i).status.closeReceived);
  }

  lemma ReceiveKeeps(me: Table, peer: Table, pairs: Pairs, accept: bool, isX: bool)
    requires AllGood(me, peer, pairs) && peer.wire != []
    ensures var m := peer.wire[0];
            && Receive(me, m, accept, isX).Done?
            && AllGood(Receive(me, m, accept, isX).table, peer.(wire := peer.wire[1..]), PairsAfter(me, peer, pairs,
                m, accept))
  {
    var m, peer' := peer.wire[0], peer.(wire := peer.wire[1..]);
    TailSettled(peer, peer.wire[1..]);
    match m
    case PortOpen(r, _) => InputPortOpenKeeps(me, peer, pairs, accept, isX);
    case OpenConfirmation(i, k) => ConfirmationKeeps(me, peer, pairs);
    case OpenFailure(i) => FailureKeeps(me, peer, pairs);
    case Data(i, d) => InputDataKeeps(me, peer, pairs);
    case InputEof(i) => ReceiveIeofKeeps(me, peer, pairs);
    case OutputClosed(i) => ReceiveOclosedKeeps(me, peer, pairs);
  }

  lemma InputPortOpenKeeps(me: Table, peer: Table, pairs: Pairs, accept: bool, isX: bool)
    requires AllGood(me, peer, pairs) && peer.wire != [] && peer.wire[0].PortOpen?
    ensures var m := peer.wire[0];
            && InputPortOpen(me, m.sender, accept, isX).Done?
            && AllGood(InputPortOpen(me, m.sender, accept, isX).table, peer.(wire := peer.wire[1..]), PairsAfter(me,
                peer, pairs, m, accept))
  {
    if accept {
      AcceptKeeps(me, peer, pairs, isX);
    } else {
      RefuseKeeps(me, peer, pairs, isX);
    }
  }

  lemma AcceptKeeps(me: Table, peer: Table, pairs: Pairs, isX: bool)
    requires AllGood(me, peer, pairs) && peer.wire != [] && peer.wire[0].PortOpen?
    ensures var m := peer.wire[0];
            && InputPortOpen(me, m.sender, true, isX).Done?
            && AllGood(InputPortOpen(me, m.sender, true, isX).table, peer.(wire := peer.wire[1..]),
                       PairsAfter(me, peer, pairs, m, true))
  {
    var r, peer' := peer.wire[0].sender, peer.(wire := peer.wire[1..]);
    TailSettled(peer, peer.wire[1..]);
    AllocateAt(me, Open, r, isX, NoService);
    TailSettled(Allocate(me, Open, r, isX, NoService), me.wire + [OpenConfirmation(r, Slot(me))]);
    var me' := InputPortOpen(me, r, true, isX).table;
    var ch := Channel(Open, |me.sockets|, r, NO_STATUS, [], [], isX, NoService);
    AcceptBytes(me, me', peer, peer', pairs, Slot(me), ch);
  }

  lemma RefuseKeeps(me: Table, peer: Table, pairs: Pairs, isX: bool)
    requires AllGood(me, peer, pairs) && peer.wire != [] && peer.wire[0].PortOpen?
    ensures var m := peer.wire[0];
            && InputPortOpen(me, m.sender, false, isX).Done?
            && AllGood(InputPortOpen(me, m.sender, false, isX).table, peer.(wire := peer.wire[1..]),
                       PairsAfter(me, peer, pairs, m, false))
  {
    var r, peer' := peer.wire[0].sender, peer.(wire := peer.wire[1..]);
    TailSettled(peer, peer.wire[1..]);
    var me' := me.Send(OpenFailure(r));
    TailSettled(me, me'.wire);
    RefuseBytes(me, me', peer, peer', pairs, r);
  }

  lemma ConfirmationKeeps(me: Table, peer: Table, pairs: Pairs)
    requires AllGood(me, peer, pairs) && peer.wire != [] && peer.wire[0].OpenConfirmation?
    ensures var m := peer.wire[0];
            && InputOpenConfirmation(me, m.id, m.sender).Done?
            && AllGood(InputOpenConfirmation(me, m.id, m.sender).table, peer.(wire := peer.wire[1..]), pairs)
  {
    var i, k, peer' := peer.wire[0].id, peer.wire[0].sender, peer.(wire := peer.wire[1..]);
    TailSettled(peer, peer.wire[1..]);
    assert SlotOk(me, peer, i);
    assert Pending(peer.wire, i)[0] == peer.wire[0];
    assert At(me, i).kind == Opening;
    PutWellFormed(me, i, me.channels[i].(remoteId := k, kind := Open));
    PutAt(me, InputOpenConfirmation(me, i, k).table, i, me.channels[i].(remoteId := k, kind := Open));
    ConfirmationBytes(me, InputOpenConfirmation(me, i, k).table, peer, peer', pairs, i, k);
  }

  lemma FailureKeeps(me: Table, peer: Table, pairs: Pairs)
    requires AllGood(me, peer, pairs) && peer.wire != [] && peer.wire[0].OpenFailure?
    ensures var m := peer.wire[0];
            && InputOpenFailure(me, m.id).Done?
            && AllGood(InputOpenFailure(me, m.id).table, peer.(wire := peer.wire[1..]), pairs)
  {
    var i, peer' := peer.wire[0].id, peer.(wire := peer.wire[1..]);
    TailSettled(peer, peer.wire[1..]);
    assert SlotOk(me, peer, i);
    assert Pending(peer.wire, i)[0] == peer.wire[0];
    assert At(me, i).kind == Opening;
    FreeWellFormed(me, i);
    FreeAt(me, i);
    FailureBytes(me, ChannelFree(me, i), peer, peer', pairs, i);
  }

  // ---------- loop passes ----------

  /** From slot i on, a watched socket is still open in the watched direction. */
  ghost predicate WatchOk(t: Table, w: Watch, i: int) {
    forall j :: j >= i && At(t, j).kind == Open ==>
      && (At(t, j).sock in w.readset ==> !At(t, j).status.inputClosed)
      && (At(t, j).sock in w.writeset ==> !At(t, j).status.outputClosed)
  }

  /** Slots from i on have not been put under watch yet. */
  ghost predicate Unwatched(t: Table, w: Watch, i: int) {
    forall j :: j >= i && At(t, j).kind != Free ==> At(t, j).sock !in w.readset && At(t, j).sock !in w.writeset
  }

  /** What one turn of channel_prepare_select may put under watch. */
  lemma PrepareSlotShape(t: Table, i: int, w: Watch, maxPacket: nat)
    requires WellFormed(t) && 0 <= i < |t.channels|
    ensures var (t', w') := PrepareSlot(t, i, w, maxPacket);
            && (forall j :: j != i ==> At(t', j) == At(t, j))
            && (At(t', i).kind == Open ==> At(t, i).kind == Open && At(t', i).sock == At(t, i).sock)
            && (forall s :: s in w'.readset && s !in w.readset ==>
                  && At(t, i).kind in {Open, Listener} && s == At(t, i).sock
                  && !(At(t', i).kind == Open && At(t', i).status.inputClosed))
            && (forall s :: s in w'.writeset && s !in w.writeset ==>
                  && At(t, i).kind == Open && s == At(t, i).sock
                  && !(At(t', i).kind == Open && At(t', i).status.outputClosed))
  {
    var (t', w') := PrepareSlot(t, i, w, maxPacket);
    assert forall j :: j != i ==> At(t', j) == At(t, j);
  }

  lemma DistinctSockets(t: Table, i: int)
    requires WellFormed(t)
    ensures forall j :: j != i && At(t, j).kind != Free && At(t, i).kind != Free ==> At(t, j).sock != At(t, i).sock
  {
    assert forall j :: At(t, j).kind != Free ==> t.Live(j);
  }

  lemma PrepareSlotWatches(t: Table, i: int, w: Watch, maxPacket: nat)
    requires WellFormed(t) && 0 <= i < |t.channels| && WatchOk(t, w, 0) && Unwatched(t, w, i)
    ensures var (t', w') := PrepareSlot(t, i, w, maxPacket);
            WatchOk(t', w', 0) && Unwatched(t', w', i + 1)
  {
    PrepareSlotShape(t, i, w, maxPacket);
    DistinctSockets(t, i);
    hide PrepareSlot, WellFormed, At;
  }

  lemma IoElsewhere(t: Table, i: int, incoming: seq<byte>, room: nat, maxPacket: nat)
    requires WellFormed(t) && t.Live(i) && t.channels[i].kind == Open
    ensures forall j :: j != i ==> At(ReadSome(t, i, incoming, maxPacket), j) == At(t, j)
    ensures forall j :: j != i ==> At(WriteSome(t, i, room), j) == At(t, j)
  {
  }

  lemma {:induction false} PreparePassKeeps(me: Table, peer: Table, pairs: Pairs, i: nat, w: Watch, maxPacket: nat)
    requires Good(me, peer, pairs) && Settled(me) && i <= |me.channels|
    requires WatchOk(me, w, 0) && Unwatched(me, w, i)
    ensures var (me', w') := PreparePass(me, i, w, maxPacket);
            Good(me', peer, pairs) && Settled(me') && WatchOk(me', w', 0)
    decreases |me.channels| - i
  {
    if i < |me.channels| {
      PrepareSlotWellFormed(me, i, w, maxPacket);
      PrepareSlotKeeps(me, peer, pairs, i, w, maxPacket);
      PrepareSlotWatches(me, i, w, maxPacket);
      var (t1, w1) := PrepareSlot(me, i, w, maxPacket);
      PreparePassKeeps(t1, peer, pairs, i + 1, w1, maxPacket);
    }
  }

  lemma AfterOpenKeeps(me: Table, peer: Table, pairs: Pairs, i: int, w: Watch, e: Event, maxPacket: nat)
    requires Good(me, peer, pairs) && Settled(me) && At(me, i).kind == Open && WatchOk(me, w, i)
    ensures Slot(me) < |Grow(me).channels|
    ensures Good(AfterSlot(me, i, w, e, maxPacket), peer, pairs)
    ensures Settled(AfterSlot(me, i, w, e, maxPacket))
  {
    AllocateFindsSlot(me);
    var ch := me.channels[i];
    var doRead := ch.sock in w.readset && e.readable && !e.readBlocks;
    var t1 := if doRead then ReadSome(me, i, e.incoming, maxPacket) else me;
    if doRead { ReadSomeKeeps(me, peer, pairs, i, e.incoming, maxPacket); }
    if doRead && |e.incoming[..Min(|e.incoming|, Min(16384, maxPacket / 4))]| == 0 {
    } else if ch.sock in w.writeset && e.writable && |t1.channels[i].output| > 0 && !e.writeBlocks {
      WriteSomeKeeps(t1, peer, pairs, i, e.room);
    }
  }

  lemma AfterSlotKeeps(me: Table, peer: Table, pairs: Pairs, i: int, w: Watch, e: Event, maxPacket: nat)
    requires Good(me, peer, pairs) && Settled(me) && 0 <= i < |me.channels| && WatchOk(me, w, i)
    ensures Slot(me) < |Grow(me).channels|
    ensures var me' := AfterSlot(me, i, w, e, maxPacket);
            Good(me', peer, pairs) && Settled(me') && |me.channels| <= |me'.channels|
  {
    AfterSlotWellFormed(me, i, w, e, maxPacket);
    if me.channels[i].kind == Open {
      AfterOpenKeeps(me, peer, pairs, i, w, e, maxPacket);
    } else if me.channels[i].kind == Listener {
      if me.channels[i].sock in w.readset && e.readable {
        AcceptedKeeps(me, peer, pairs, me.channels[i].service.X11Service?, Requested(me, i, e.stale));
      }
    }
  }

  /** A listener takes a connection. */
  lemma AcceptedKeeps(me: Table, peer: Table, pairs: Pairs, isX: bool, service: Service)
    requires Good(me, peer, pairs) && Settled(me)
    ensures Slot(me) < |Grow(me).channels|
    ensures var me' := Allocate(me, Opening, -1, isX, NoService).Send(PortOpen(Slot(me), service));
            Good(me', peer, pairs) && Settled(me')
  {
    AllocateFindsSlot(me);
    AllocateAt(me, Opening, -1, isX, NoService);
    var a := Allocate(me, Opening, -1, isX, NoService);
    var m := PortOpen(Slot(me), service);
    TailSettled(a, a.Send(m).wire);
    OpeningBytes(me, a.Send(m), peer, pairs, Slot(me),
                 Channel(Opening, |me.sockets|, -1, NO_STATUS, [], [], isX, NoService), m);
  }

  /** The other slots stay as they are, but for one a listener may take for a connection. */
  lemma AfterSlotElsewhere(t: Table, i: int, w: Watch, e: Event, maxPacket: nat)
    requires WellFormed(t) && 0 <= i < |t.channels|
    ensures Slot(t) < |Grow(t).channels|
    ensures var t' := AfterSlot(t, i, w, e, maxPacket);
            forall j :: j != i ==> At(t', j) == At(t, j) || At(t', j).kind == Opening
  {
    AllocateFindsSlot(t);
    var t' := AfterSlot(t, i, w, e, maxPacket);
    if t.channels[i].kind == Listener {
      AllocateAt(t, Opening, -1, t.channels[i].service.X11Service?, NoService);
      TailSettledAt(Allocate(t, Opening, -1, t.channels[i].service.X11Service?, NoService), t'.wire);
    } else if t.channels[i].kind == Open {
      OpenElsewhere(t, i, w, e, maxPacket);
    }
  }

  lemma OpenElsewhere(t: Table, i: int, w: Watch, e: Event, maxPacket: nat)
    requires WellFormed(t) && t.Live(i) && t.channels[i].kind == Open && Slot(t) < |Grow(t).channels|
    ensures forall j :: j != i ==> At(AfterSlot(t, i, w, e, maxPacket), j) == At(t, j)
  {
    ReadSomeWellFormed(t, i, e.incoming, maxPacket);
    IoElsewhere(t, i, e.incoming, e.room, maxPacket);
    var t1 := ReadSome(t, i, e.incoming, maxPacket);
    if t1.Live(i) {
      IoElsewhere(t1, i, e.incoming, e.room, maxPacket);
    }
    hide WriteSome, WellFormed, Slot, Grow;
  }

  lemma AfterSlotWatches(t: Table, i: int, w: Watch, e: Event, maxPacket: nat)
    requires WellFormed(t) && 0 <= i < |t.channels| && WatchOk(t, w, i)
    ensures Slot(t) < |Grow(t).channels|
    ensures WatchOk(AfterSlot(t, i, w, e, maxPacket), w, i + 1)
  {
    AfterSlotElsewhere(t, i, w, e, maxPacket);
    hide AfterSlot, WellFormed, Slot, Grow;
  }

  lemma {:induction false} AfterPassKeeps(me: Table, peer: Table, pairs: Pairs, i: nat, n: nat, w: Watch,
      events: seq<Event>, maxPacket: nat)
    requires Good(me, peer, pairs) && Settled(me) && i <= n <= |me.channels| && WatchOk(me, w, i)
    ensures var me' := AfterPass(me, i, n, w, events, maxPacket);
            Good(me', peer, pairs) && Settled(me')
    decreases n - i
  {
    if i < n {
      var e := if i < |events| then events[i] else NO_EVENT;
      AfterSlotKeeps(me, peer, pairs, i, w, e, maxPacket);
      AfterSlotWatches(me, i, w, e, maxPacket);
      AfterPassKeeps(AfterSlot(me, i, w, e, maxPacket), peer, pairs, i + 1, n, w, events, maxPacket);
    }
  }

  lemma SelectPassKeeps(me: Table, peer: Table, pairs: Pairs, events: seq<Event>, maxPacket: nat)
    requires AllGood(me, peer, pairs)
    ensures AllGood(SelectPass(me, events, maxPacket), peer, pairs)
  {
    PreparePassKeeps(me, peer, pairs, 0, Watch({}, {}), maxPacket);
    var (t1, w) := PreparePass(me, 0, Watch({}, {}), maxPacket);
    AfterPassKeeps(t1, peer, pairs, 0, |t1.channels|, w, events, maxPacket);
  }

  lemma {:induction false} PollPassKeeps(me: Table, peer: Table, pairs: Pairs, i: nat, n: nat, interactive: bool,
      maxPacket: nat)
    requires AllGood(me, peer, pairs) && i <= n <= |me.channels|
    ensures AllGood(PollPass(me, i, n, interactive, maxPacket), peer, pairs)
    decreases n - i
  {
    if i < n {
      PollSlotWellFormed(me, i, interactive, maxPacket);
      PollSlotKeeps(me, peer, pairs, i, interactive, maxPacket);
      PollPassKeeps(PollSlot(me, i, interactive, maxPacket), peer, pairs, i + 1, n, interactive, maxPacket);
    }
  }

  lemma ListenKeeps(me: Table, peer: Table, pairs: Pairs, service: Service)
    requires AllGood(me, peer, pairs)
    ensures Slot(me) < |Grow(me).channels|
    ensures AllGood(Allocate(me, Listener, -1, false, service), peer, pairs)
  {
    AllocateAt(me, Listener, -1, false, service);
    var b := Channel(Listener, |me.sockets|, -1, NO_STATUS, [], [], false, service);
    OpeningBytes(me, Allocate(me, Listener, -1, false, service), peer, pairs, Slot(me), b, OpenFailure(0));
  }

  // ---------- runs ----------

  /** Both endpoints with their outgoing links; pairs hold a socket of a and one of b. */
  datatype System = System(a: Table, b: Table, pairs: Pairs)

  /** What one endpoint does next; the arguments are the choices of its surroundings. */
  datatype Action =
    | Deliver(accept: bool, isX: bool)
    | Poll(slots: nat, interactive: bool)
    | Select(events: seq<Event>)
    | Listen(service: Service)

  /** `me` acts; its peer only loses the message that is delivered. */
  ghost predicate Acts(me: Table, peer: Table, pairs: Pairs, act: Action, maxPacket: nat, me': Table, peer': Table,
      pairs': Pairs) {
    match act
    case Deliver(accept, isX) =>
      && peer.wire != []
      && Receive(me, peer.wire[0], accept, isX) == Done(me')
      && peer' == peer.(wire := peer.wire[1..])
      && pairs' == PairsAfter(me, peer, pairs, peer.wire[0], accept)
    case Poll(n, interactive) =>
      && WellFormed(me) && n <= |me.channels|
      && me' == PollPass(me, 0, n, interactive, maxPacket) && peer' == peer && pairs' == pairs
    case Select(events) =>
      && WellFormed(me)
      && me' == SelectPass(me, events, maxPacket) && peer' == peer && pairs' == pairs
    case Listen(service) =>
      && Slot(me) < |Grow(me).channels|
      && me' == Allocate(me, Listener, -1, false, service) && peer' == peer && pairs' == pairs
  }

  ghost predicate Next(s: System, s': System) {
    exists act: Action, maxPacket: nat ::
      || Acts(s.a, s.b, s.pairs, act, maxPacket, s'.a, s'.b, s'.pairs)
      || Acts(s.b, s.a, Swap(s.pairs), act, maxPacket, s'.b, s'.a, Swap(s'.pairs))
  }

  ghost predicate IsRun(run: seq<System>) {
    && run != [] && run[0] == System(EMPTY_TABLE, EMPTY_TABLE, {})
    && forall k :: 0 <= k < |run| - 1 ==> Next(run[k], run[k + 1])
  }

  ghost predicate SystemGood(s: System) { AllGood(s.a, s.b, s.pairs) }

  lemma SwapTwice(pairs: Pairs)
    ensures Swap(Swap(pairs)) == pairs
  {
    SwapIn(pairs);
    SwapIn(Swap(pairs));
    forall p ensures p in Swap(Swap(pairs)) <==> p in pairs {
      assert p == (p.0, p.1);
    }
  }

  lemma AllGoodSwap(me: Table, peer: Table, pairs: Pairs)
    requires AllGood(me, peer, pairs)
    ensures AllGood(peer, me, Swap(pairs))
  {
    SwapTwice(pairs);
  }

  lemma ActsKeeps(me: Table, peer: Table, pairs: Pairs, act: Action, maxPacket: nat, me': Table, peer': Table,
      pairs': Pairs)
    requires AllGood(me, peer, pairs) && Acts(me, peer, pairs, act, maxPacket, me', peer', pairs')
    ensures AllGood(me', peer', pairs')
  {
    match act
    case Deliver(accept, isX) => ReceiveKeeps(me, peer, pairs, accept, isX);
    case Poll(n, interactive) => PollPassKeeps(me, peer, pairs, 0, n, interactive, maxPacket);
    case Select(events) => SelectPassKeeps(me, peer, pairs, events, maxPacket);
    case Listen(service) => ListenKeeps(me, peer, pairs, service);
  }

  lemma NextKeeps(s: System, s': System)
    requires SystemGood(s) && Next(s, s')
    ensures SystemGood(s')
  {
    var act: Action, maxPacket: nat :|
      || Acts(s.a, s.b, s.pairs, act, maxPacket, s'.a, s'.b, s'.pairs)
      || Acts(s.b, s.a, Swap(s.pairs), act, maxPacket, s'.b, s'.a, Swap(s'.pairs));
    if Acts(s.a, s.b, s.pairs, act, maxPacket, s'.a, s'.b, s'.pairs) {
      ActsKeeps(s.a, s.b, s.pairs, act, maxPacket, s'.a, s'.b, s'.pairs);
    } else {
      AllGoodSwap(s.a, s.b, s.pairs);
      ActsKeeps(s.b, s.a, Swap(s.pairs), act, maxPacket, s'.b, s'.a, Swap(s'.pairs));
      AllGoodSwap(s'.b, s'.a, Swap(s'.pairs));
      SwapTwice(s'.pairs);
    }
  }

  lemma {:induction false} RunGood(run: seq<System>, k: nat)
    requires IsRun(run) && k < |run|
    ensures SystemGood(run[k])
  {
    if k == 0 {
      assert Swap({}) == {};
      forall i: int ensures SlotOk(EMPTY_TABLE, EMPTY_TABLE, i) {
      }
    } else {
      RunGood(run, k - 1);
      NextKeeps(run[k - 1], run[k]);
    }
  }
}
