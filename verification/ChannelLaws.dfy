/**
 What single handlers of the channel layer come to, with the calls they make inside each other:
 which sockets a pass of channel_prepare_select puts under watch, which flags are set and which
 messages are sent by the close handshake, and when its assertion fails.
 */
module ChannelLaws {
  import opened Bytes
  import opened Channels

  // ---------- the sockets under watch ----------

  /** A listener, or an open channel whose input is open and has room. */
  predicate Reads(ch: Channel, maxPacket: nat) {
    || ch.kind == Listener
    || (ch.kind == Open && !ch.status.inputClosed && |ch.input| < maxPacket / 2)
  }

  /** An open channel whose output is open and has something to write. */
  predicate Writes(ch: Channel) { ch.kind == Open && !ch.status.outputClosed && ch.output != [] }

  /** The socket of some slot from i on that is to be read. */
  predicate ReadsFrom(channels: seq<Channel>, i: nat, maxPacket: nat, s: int) {
    exists k :: i <= k < |channels| && channels[k].sock == s && Reads(channels[k], maxPacket)
  }

  predicate WritesFrom(channels: seq<Channel>, i: nat, s: int) {
    exists k :: i <= k < |channels| && channels[k].sock == s && Writes(channels[k])
  }

  lemma PrepareSlotWatch(t: Table, i: nat, w: Watch, maxPacket: nat)
    requires WellFormed(t) && i < |t.channels|
    ensures var (t', w') := PrepareSlot(t, i, w, maxPacket);
            var ch := t.channels[i];
            && (forall s :: s in w'.readset <==> s in w.readset || (s == ch.sock && Reads(ch, maxPacket)))
            && (forall s :: s in w'.writeset <==> s in w.writeset || (s == ch.sock && Writes(ch)))
            && |t'.channels| == |t.channels|
            && forall k :: i < k < |t.channels| ==> t'.channels[k] == t.channels[k]
  {
    hide NumUsed;
  }

  lemma FromNext(channels: seq<Channel>, i: nat, maxPacket: nat, s: int)
    requires i < |channels|
    ensures ReadsFrom(channels, i, maxPacket, s) <==>
            (s == channels[i].sock && Reads(channels[i], maxPacket)) || ReadsFrom(channels, i + 1, maxPacket, s)
    ensures WritesFrom(channels, i, s) <==>
            (s == channels[i].sock && Writes(channels[i])) || WritesFrom(channels, i + 1, s)
  {
    hide Reads, Writes;
  }

  lemma SameFrom(channels: seq<Channel>, channels': seq<Channel>, i: nat, maxPacket: nat, s: int)
    requires |channels'| == |channels| && forall k :: i <= k < |channels| ==> channels'[k] == channels[k]
    ensures ReadsFrom(channels', i, maxPacket, s) == ReadsFrom(channels, i, maxPacket, s)
    ensures WritesFrom(channels', i, s) == WritesFrom(channels, i, s)
  {
    hide Reads, Writes;
  }

  /** channel_prepare_select adds exactly the sockets that are to be read and written. */
  lemma {:induction false} PreparePassWatch(t: Table, i: nat, w: Watch, maxPacket: nat)
    requires WellFormed(t) && i <= |t.channels|
    ensures var w' := PreparePass(t, i, w, maxPacket).1;
            && (forall s :: s in w'.readset <==> s in w.readset || ReadsFrom(t.channels, i, maxPacket, s))
            && (forall s :: s in w'.writeset <==> s in w.writeset || WritesFrom(t.channels, i, s))
    decreases |t.channels| - i
  {
    if i < |t.channels| {
      PrepareSlotWellFormed(t, i, w, maxPacket);
      PrepareSlotWatch(t, i, w, maxPacket);
      var (t1, w1) := PrepareSlot(t, i, w, maxPacket);
      PreparePassWatch(t1, i + 1, w1, maxPacket);
      hide PrepareSlot, WellFormed, Reads, Writes, ReadsFrom, WritesFrom;
      forall s
        ensures ReadsFrom(t.channels, i, maxPacket, s) <==>
                (s == t.channels[i].sock && Reads(t.channels[i], maxPacket)) ||
                ReadsFrom(t1.channels, i + 1, maxPacket, s)
        ensures WritesFrom(t.channels, i, s) <==>
                (s == t.channels[i].sock && Writes(t.channels[i])) || WritesFrom(t1.channels, i + 1, s)
      {
        FromNext(t.channels, i, maxPacket, s);
        SameFrom(t.channels, t1.channels, i + 1, maxPacket, s);
      }
    }
  }

  // ---------- the close handshake ----------

  /** Slot i has the flags st, the rest of the channel is ch, and the messages were sent; with all
      six flags set the slot is free. */
  predicate Becomes(t: Table, t': Table, i: int, ch: Channel, sent: seq<Message>)
    requires t.Live(i)
  {
    && t'.sockets == t.sockets && t'.wire == t.wire + sent
    && if ch.status.Terminates()
       then && t'.channels == t.channels[i := ch.(kind := Free, input := [], output := [])]
            && t'.used == t.used - 1
       else t'.channels == t.channels[i := ch] && t'.used == t.used
  }

  function Eof(ch: Channel, sent: bool): seq<Message> { if sent then [InputEof(ch.remoteId)] else [] }
  function Oclosed(ch: Channel, sent: bool): seq<Message> { if sent then [OutputClosed(ch.remoteId)] else [] }

  /** Closing the output: the flag is set, what was to be written is dropped, and the other end is
      told once. */
  lemma CloseOutputLaw(t: Table, i: int)
    requires t.Live(i)
    ensures var ch := t.channels[i];
            var tell := !ch.status.outputClosed && !ch.status.closeSent;
            if ch.status.outputClosed then CloseOutput(t, i) == t
            else if tell then
              Becomes(t, CloseOutput(t, i), i,
                      ch.(status := ch.status.(outputClosed := true, closeSent := true), output := []),
                      [OutputClosed(ch.remoteId)])
            else CloseOutput(t, i) == t.Put(i, ch.(status := ch.status.(outputClosed := true), output := []))
  {
  }

  /** Closing the input of a channel that is not open yet sends its EOF as well; an open channel's EOF
      waits for the rest of its input. */
  lemma CloseInputLaw(t: Table, i: int)
    requires t.Live(i)
    ensures var ch := t.channels[i];
            if ch.status.inputClosed then CloseInput(t, i) == t
            else if ch.kind != Open && !ch.status.eofSent then
              Becomes(t, CloseInput(t, i), i,
                      ch.(status := ch.status.(inputClosed := true, eofSent := true)), [InputEof(ch.remoteId)])
            else CloseInput(t, i) == t.Put(i, ch.(status := ch.status.(inputClosed := true)))
  {
  }

  /** EOF for an open channel sets the flag, and an X11 connection closes its input with it. */
  lemma ReceiveIeofLaw(t: Table, i: int)
    requires t.Live(i) && t.channels[i].kind == Open
    ensures var ch, st := t.channels[i], t.channels[i].status;
            var st' := st.(inputClosed := st.inputClosed || ch.isX, eofReceived := true);
            && (ReceiveIeof(t, i).Disconnect? <==> st.eofReceived)
            && (ReceiveIeof(t, i).Done? <==> !st.eofReceived)
            && (ReceiveIeof(t, i).Done? ==> Becomes(t, ReceiveIeof(t, i).table, i, ch.(status := st'), []))
  {
  }

  /** Whether EOF and close messages go out on EOF for a channel that is not open. */
  predicate TellsEof(ch: Channel) { ch.isX && !ch.status.inputClosed && !ch.status.eofSent }
  predicate TellsClose(ch: Channel) { !ch.status.outputClosed && !ch.status.closeSent }

  /** A channel that is not open, after EOF. */
  function AfterEarlyEof(ch: Channel): Channel {
    var st := ch.status;
    ch.(status := Status(st.inputClosed || ch.isX, true, st.eofSent || TellsEof(ch), true,
                         st.closeSent || TellsClose(ch), st.closeReceived),
        output := if st.outputClosed then ch.output else [])
  }

  /** The first close, of a slot that has just taken the flag. */
  lemma EarlyCloses(t: Table, i: int)
    requires t.Live(i) && t.channels[i].kind != Open && t.channels[i].status.eofReceived
    ensures var ch := t.channels[i];
            var t1 := if ch.isX then CloseInput(t, i) else t;
            && (t1.Live(i) <==> !(TellsEof(ch) && ch.status.outputClosed && AfterEarlyEof(ch).status.Terminates()))
            && (t1.Live(i) ==>
                  && t1.channels[i].kind != Open && |t1.channels| == |t.channels|
                  && t1.channels[i].status ==
                     ch.status.(inputClosed := AfterEarlyEof(ch).status.inputClosed,
                                eofSent := AfterEarlyEof(ch).status.eofSent)
                  && t1 == t.SetStatus(i, t1.channels[i].status).(wire := t.wire + Eof(ch, TellsEof(ch))))
  {
    CloseInputLaw(t, i);
    hide CloseInput;
  }

  /** The second close and the check behind it. */
  lemma EarlyEnds(t: Table, i: int)
    requires t.Live(i) && t.channels[i].kind != Open
    ensures var ch := t.channels[i];
            var st := ch.status.(outputClosed := true, closeSent := ch.status.closeSent || TellsClose(ch));
            var ch' := ch.(status := st, output := if ch.status.outputClosed then ch.output else []);
            var t1 := CloseOutput(t, i);
            && (t1.Live(i) <==> !(TellsClose(ch) && ch'.status.Terminates()))
            && (t1.Live(i) ==>
                  t1 == t.Put(i, ch').(wire := t.wire + Oclosed(ch, TellsClose(ch))))
  {
    CloseOutputLaw(t, i);
    hide CloseOutput;
  }

  /** EOF for a channel that is not open closes its output as well.  The assertion in channel_free
      fails exactly when one of the closes frees the slot by its own message. */
  lemma EarlyIeofFails(t: Table, i: int)
    requires t.Live(i) && t.channels[i].kind != Open
    ensures var ch := t.channels[i];
            && (ReceiveIeof(t, i).Disconnect? <==> ch.status.eofReceived)
            && (ReceiveIeof(t, i).AssertionFailed? <==>
                  && !ch.status.eofReceived && AfterEarlyEof(ch).status.Terminates()
                  && (TellsClose(ch) || (TellsEof(ch) && ch.status.outputClosed)))
  {
    var t1 := t.SetStatus(i, t.channels[i].status.(eofReceived := true));
    EarlyCloses(t1, i);
    var t2 := if t.channels[i].isX then CloseInput(t1, i) else t1;
    if t2.Live(i) {
      EarlyEnds(t2, i);
    }
    hide CloseInput, CloseOutput;
  }

  /** Otherwise both flags are set, and both messages sent that were not sent before. */
  lemma EarlyIeofLaw(t: Table, i: int)
    requires t.Live(i) && t.channels[i].kind != Open && ReceiveIeof(t, i).Done?
    ensures var ch := t.channels[i];
            Becomes(t, ReceiveIeof(t, i).table, i, AfterEarlyEof(ch),
                    Eof(ch, TellsEof(ch)) + Oclosed(ch, TellsClose(ch)))
  {
    var t1 := t.SetStatus(i, t.channels[i].status.(eofReceived := true));
    EarlyCloses(t1, i);
    EarlyEnds(if t.channels[i].isX then CloseInput(t1, i) else t1, i);
    hide CloseInput, CloseOutput;
  }

  /** The other end's close: what was to be sent is dropped, and the input closes. */
  lemma ReceiveOclosedLaw(t: Table, i: int)
    requires t.Live(i)
    ensures var ch, st := t.channels[i], t.channels[i].status;
            var tellEof := ch.kind != Open && !st.inputClosed && !st.eofSent;
            var st' := st.(inputClosed := true, eofSent := st.eofSent || tellEof, closeReceived := true);
            && (ReceiveOclosed(t, i).Disconnect? <==> st.closeReceived)
            && (ReceiveOclosed(t, i).AssertionFailed? <==> !st.closeReceived && st'.Terminates() && tellEof)
            && (ReceiveOclosed(t, i).Done? ==>
                  Becomes(t, ReceiveOclosed(t, i).table, i, ch.(status := st', input := []), Eof(ch, tellEof)))
  {
  }

  // ---------- the amounts ----------

  /** A poll sends the first octets of the input, all of them unless they exceed the limit: 512 in an
      interactive session, else 8192 or half a packet. */
  lemma PollSends(t: Table, i: int, interactive: bool, maxPacket: nat)
    requires t.Live(i) && t.channels[i].kind == Open && t.channels[i].input != []
    ensures var ch, t' := t.channels[i], PollSlot(t, i, interactive, maxPacket);
            exists d: seq<byte> ::
              && d <= ch.input && t'.channels[i].input == ch.input[|d|..]
              && t'.wire == t.wire + [Data(ch.remoteId, d)]
              && (interactive ==> |d| <= 512)
              && (!interactive ==> |d| <= 8192 && |d| <= maxPacket / 2)
              && (d == ch.input ||
                  |d| == if interactive then 512 else if maxPacket < 16384 then maxPacket / 2 else 8192)
  {
    var ch := t.channels[i];
    var len := if interactive then Min(|ch.input|, 512) else Min(Min(|ch.input|, 8192), maxPacket / 2);
    var d := ch.input[..len];
    assert d <= ch.input;
  }

  /** read() is asked for no more than 16384 octets and a quarter of a packet; nothing read closes the input. */
  lemma ReadTakes(t: Table, i: int, incoming: seq<byte>, maxPacket: nat)
    requires t.Live(i) && 0 <= t.channels[i].sock < |t.sockets|
    ensures var t' := ReadSome(t, i, incoming, maxPacket);
            exists d: seq<byte> ::
              && d <= incoming && |d| <= 16384 && |d| <= maxPacket / 4
              && (d == incoming || |d| == 16384 || |d| == maxPacket / 4)
              && if d == [] then t' == CloseInput(t, i)
                 else && t'.channels == t.channels[i := t.channels[i].(input := t.channels[i].input + d)]
                      && t'.sockets[t.channels[i].sock].read == t.sockets[t.channels[i].sock].read + d
  {
    var d := incoming[..Min(|incoming|, Min(16384, maxPacket / 4))];
    assert d <= incoming;
    hide CloseInput;
  }

  /** write() takes the first octets of the output, and what it takes is written; taking none closes the output. */
  lemma WriteTakes(t: Table, i: int, room: nat)
    requires t.Live(i) && 0 <= t.channels[i].sock < |t.sockets|
    ensures var t' := WriteSome(t, i, room);
            exists d: seq<byte> ::
              && d <= t.channels[i].output && |d| <= room && (d == t.channels[i].output || |d| == room)
              && if d == [] then t' == CloseOutput(t, i)
                 else && t'.channels == t.channels[i := t.channels[i].(output := t.channels[i].output[|d|..])]
                      && t'.sockets[t.channels[i].sock].written == t.sockets[t.channels[i].sock].written + d
  {
    var d := t.channels[i].output[..Min(room, |t.channels[i].output|)];
    assert d <= t.channels[i].output;
    hide CloseOutput;
  }

  /** An open channel is read and written only under watch, when its socket is ready and does not say that
      the call would block, and written only when there is something; a closed input ends its turn. */
  lemma OpenLaw(t: Table, i: int, w: Watch, e: Event, maxPacket: nat)
    requires WellFormed(t) && 0 <= i < |t.channels| && t.channels[i].kind == Open
    ensures Slot(t) < |Grow(t).channels|
    ensures var ch, t' := t.channels[i], AfterSlot(t, i, w, e, maxPacket);
            var read := ch.sock in w.readset && e.readable && !e.readBlocks;
            var write := ch.sock in w.writeset && e.writable && !e.writeBlocks && ch.output != [];
            var t1 := ReadSome(t, i, e.incoming, maxPacket);
            && (!read && !write ==> t' == t)
            && (!read && write ==> t' == WriteSome(t, i, e.room))
            && (read && !write ==> t' == t1)
            && (read && write && (e.incoming == [] || maxPacket < 4) ==> t' == t1)
            && (read && write && e.incoming != [] && maxPacket >= 4 ==> t1.Live(i) && t' == WriteSome(t1, i, e.room))
  {
    AllocateFindsSlot(t);
    hide Slot, Grow, NumUsed, WriteSome;
  }

  // ---------- refused messages ----------

  /** Which messages end the connection: those for a slot that is free or, for the answers to a request,
      not opening; data behind EOF; and EOF or close for the second time.  No request does. */
  lemma RefusedExactly(t: Table, m: Message, accept: bool, isX: bool)
    ensures Receive(t, m, accept, isX).Disconnect? <==>
            match m
            case PortOpen(_, _) => false
            case OpenConfirmation(i, _) => !t.Live(i) || t.channels[i].kind != Opening
            case OpenFailure(i) => !t.Live(i) || t.channels[i].kind != Opening
            case Data(i, _) => !t.Live(i) || (t.channels[i].kind == Open && t.channels[i].status.eofReceived)
            case InputEof(i) => !t.Live(i) || t.channels[i].status.eofReceived
            case OutputClosed(i) => !t.Live(i) || t.channels[i].status.closeReceived
  {
    hide Allocate, Slot, Grow;
    if m.InputEof? && t.Live(m.id) {
      if t.channels[m.id].kind == Open { ReceiveIeofLaw(t, m.id); } else { EarlyIeofFails(t, m.id); }
    }
    if m.OutputClosed? && t.Live(m.id) { ReceiveOclosedLaw(t, m.id); }
    hide ReceiveIeof, ReceiveOclosed;
  }

  /** Data is appended to the output of an open channel, and dropped when the output is closed or the
      channel does not take data. */
  lemma DataLaw(t: Table, i: int, data: seq<byte>)
    requires t.Live(i) && !(t.channels[i].kind == Open && t.channels[i].status.eofReceived)
    ensures var ch := t.channels[i];
            InputData(t, i, data) ==
            Done(if ch.kind == Open && !ch.status.outputClosed
                 then t.(channels := t.channels[i := ch.(output := ch.output + data)]) else t)
  {
  }

  // ---------- new channels ----------

  /** A channel on a new socket: no flag is set and nothing is read or written yet. */
  function NewChannel(kind: Kind, socket: int, remoteId: int, isX: bool, service: Service): Channel {
    Channel(kind, socket, remoteId, Status(false, false, false, false, false, false), [], [], isX, service)
  }

  /** t' is t with the channel in the lowest free slot, of a table made longer by ten when it was full. */
  ghost predicate Adds(t: Table, t': Table, slot: nat, ch: Channel) {
    && |t'.channels| == |t.channels| + (if forall j :: 0 <= j < |t.channels| ==> t.Live(j) then 10 else 0)
    && slot < |t'.channels| && t'.channels[slot] == ch && !t.Live(slot) && t'.used == t.used + 1
    && (forall j :: 0 <= j < slot ==> t.Live(j))
    && (forall j :: 0 <= j < |t.channels| && j != slot ==> t'.channels[j] == t.channels[j])
    && (forall j :: |t.channels| <= j < |t'.channels| && j != slot ==> t'.channels[j] == FREE_CHANNEL)
    && t'.sockets == t.sockets + [Socket([], [], false)]
  }

  lemma GrowLaw(t: Table)
    requires WellFormed(t)
    ensures |Grow(t).channels| == |t.channels| + (if forall j :: 0 <= j < |t.channels| ==> t.Live(j) then 10 else 0)
    ensures Grow(t).used == t.used && Grow(t).sockets == t.sockets && Grow(t).wire == t.wire
  {
    NumUsedFull(t.channels);
    hide NumUsed;
    assert forall j :: 0 <= j < |t.channels| ==> t.Live(j) == (t.channels[j].kind != Free);
  }

  lemma BelowSlot(t: Table, j: nat)
    requires WellFormed(t) && j < Slot(t)
    ensures t.Live(j)
  {
    AllocateFindsSlot(t);
    assert Grow(t).channels[j].kind != Free;
    hide Grow, NumUsed;
  }

  lemma AllocateLaw(t: Table, kind: Kind, remoteId: int, isX: bool, service: Service)
    requires WellFormed(t) && kind != Free
    ensures Slot(t) < |Grow(t).channels|
    ensures var t' := Allocate(t, kind, remoteId, isX, service);
            && Adds(t, t', Slot(t), NewChannel(kind, |t.sockets|, remoteId, isX, service))
            && t'.wire == t.wire
  {
    AllocateFindsSlot(t);
    GrowLaw(t);
    hide FirstFree, Slot, Grow, WellFormed;
    forall j: nat | j < Slot(t) ensures t.Live(j) {
      BelowSlot(t, j);
    }
  }

  /** An accepted request opens a channel that names the requester's, and the answer names it; a refused
      one is answered, too. */
  lemma AcceptLaw(t: Table, remote: int, isX: bool)
    requires WellFormed(t)
    ensures InputPortOpen(t, remote, false, isX) == Done(t.Send(OpenFailure(remote)))
    ensures InputPortOpen(t, remote, true, isX).Done?
    ensures var t' := InputPortOpen(t, remote, true, isX).table;
            && Adds(t, t', Slot(t), NewChannel(Open, |t.sockets|, remote, isX, NoService))
            && t'.wire == t.wire + [OpenConfirmation(remote, Slot(t))]
  {
    AllocateLaw(t, Open, remote, isX, NoService);
    hide Allocate, Slot, WellFormed, Grow;
  }

  /** A listener whose socket is ready takes the connection into an opening channel and requests its
      service, which for X11 and the agent is always its own. */
  lemma ListenerLaw(t: Table, i: int, w: Watch, e: Event, maxPacket: nat)
    requires WellFormed(t) && 0 <= i < |t.channels| && t.channels[i].kind == Listener
    ensures Slot(t) < |Grow(t).channels|
    ensures var t' := AfterSlot(t, i, w, e, maxPacket);
            var x := t.channels[i].service == X11Service;
            if t.channels[i].sock !in w.readset || !e.readable then t' == t
            else
              && Adds(t, t', Slot(t), NewChannel(Opening, |t.sockets|, -1, x, NoService))
              && exists s: Service ::
                   && t'.wire == t.wire + [PortOpen(Slot(t), s)]
                   && (t.channels[i].service.PortService? && t.used == |t.channels| ==> s == PortService(e.stale))
                   && (!(t.channels[i].service.PortService? && t.used == |t.channels|) ==> s == t.channels[i].service)
  {
    AllocateLaw(t, Opening, -1, t.channels[i].service == X11Service, NoService);
    hide Allocate, Slot, WellFormed, Grow, ReadSome, WriteSome;
  }
}
