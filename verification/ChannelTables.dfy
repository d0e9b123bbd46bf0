/**
 The slot table updated in place, handler by handler as newchannels.c does it, in an array that
 is replaced by a larger one when it is full, even under a loop that goes over it.  Every
 method is proved to take the table to the value the handlers of `Channels` give.
 */
module ChannelTables {
  import opened Bytes
  import opened Channels
  import ChannelLaws

  /** Aborted stands for the assertion in channel_free. */
  datatype Verdict = Continue | Quit(reason: string) | Aborted

  /** The slots from n on are free or opening. */
  predicate QuietFrom(t: Table, n: nat) {
    forall j :: n <= j < |t.channels| ==> t.channels[j].kind in {Free, Opening}
  }

  lemma PassStarts(t: Table, w: Watch, events: seq<Event>, maxPacket: nat)
    requires WellFormed(t)
    ensures QuietFrom(t, |t.channels|)
    ensures |t.channels| == 0 ==> AfterPass(t, 0, 0, w, events, maxPacket) == t
  {
  }

  /** One slot of the pass; slots behind the old table do nothing. */
  lemma PassStep(t: Table, i: nat, n: nat, w: Watch, events: seq<Event>, maxPacket: nat)
    requires WellFormed(t) && i < |t.channels| && n <= |t.channels| && QuietFrom(t, n)
    ensures Slot(t) < |Grow(t).channels|
    ensures var t' := AfterSlot(t, i, w, if i < |events| then events[i] else NO_EVENT, maxPacket);
            && WellFormed(t') && |t.channels| <= |t'.channels| && QuietFrom(t', n)
            && (i + 1 < n ==> AfterPass(t, i, n, w, events, maxPacket) == AfterPass(t', i + 1, n, w, events, maxPacket))
            && (i + 1 == n ==> AfterPass(t, i, n, w, events, maxPacket) == t')
            && (i >= n ==> t' == t)
  {
    var e := if i < |events| then events[i] else NO_EVENT;
    AfterSlotWellFormed(t, i, w, e, maxPacket);
    StaysQuiet(t, i, n, w, e, maxPacket);
    hide WellFormed, QuietFrom, Slot, Grow;
  }

  /** No slot but i is different. */
  predicate OnlyAt(t: Table, t': Table, i: int) {
    |t'.channels| == |t.channels| && forall j :: 0 <= j < |t.channels| && j != i ==> t'.channels[j] == t.channels[j]
  }

  lemma ReadsOnlyAt(t: Table, i: nat, incoming: seq<byte>, maxPacket: nat)
    requires t.Live(i) && 0 <= t.channels[i].sock < |t.sockets|
    ensures OnlyAt(t, ReadSome(t, i, incoming, maxPacket), i)
  {
  }

  lemma WritesOnlyAt(t: Table, i: nat, room: nat)
    requires t.Live(i) && 0 <= t.channels[i].sock < |t.sockets|
    ensures OnlyAt(t, WriteSome(t, i, room), i)
  {
  }

  lemma OpenOnlyAt(t: Table, i: nat, w: Watch, e: Event, maxPacket: nat)
    requires WellFormed(t) && t.Live(i) && t.channels[i].kind == Open && Slot(t) < |Grow(t).channels|
    ensures OnlyAt(t, AfterSlot(t, i, w, e, maxPacket), i)
  {
    ReadsOnlyAt(t, i, e.incoming, maxPacket);
    ReadSomeWellFormed(t, i, e.incoming, maxPacket);
    var t1 := ReadSome(t, i, e.incoming, maxPacket);
    if t1.Live(i) { WritesOnlyAt(t1, i, e.room); }
    WritesOnlyAt(t, i, e.room);
    hide WriteSome, Slot, Grow, NumUsed;
  }

  lemma StaysQuiet(t: Table, i: nat, n: nat, w: Watch, e: Event, maxPacket: nat)
    requires WellFormed(t) && i < |t.channels| && n <= |t.channels| && QuietFrom(t, n)
    ensures Slot(t) < |Grow(t).channels|
    ensures QuietFrom(AfterSlot(t, i, w, e, maxPacket), n)
  {
    AllocateFindsSlot(t);
    if t.channels[i].kind == Open {
      OpenOnlyAt(t, i, w, e, maxPacket);
      hide AfterSlot, WellFormed, Slot, Grow;
    } else {
      hide WellFormed, ReadSome, WriteSome;
    }
  }

  class ChannelTable {
    /** Its length is channels_alloc. */
    var channels: array<Channel>
    var channelsUsed: int
    var sockets: seq<Socket>
    var wire: seq<Message>

    function State(): Table
      reads this, channels
    {
      Table(channels[..], channelsUsed, sockets, wire)
    }

    constructor ()
      ensures State() == EMPTY_TABLE && fresh(channels)
    {
      channels, channelsUsed, sockets, wire := new Channel[0], 0, [], [];
    }

    /** An assignment to fields of channels[i]. */
    method Write(i: int, ch: Channel)
      requires 0 <= i < channels.Length
      modifies channels
      ensures State() == old(State()).Put(i, ch)
    {
      channels[i] := ch;
      assert channels[..] == old(channels[..])[i := ch];
    }

    /** packet_start, packet_put_*, packet_send. */
    method PacketSend(m: Message)
      modifies this`wire
      ensures State() == old(State()).Send(m)
    {
      wire := wire + [m];
    }

    /** Room for ten more: a new array that starts with the old one. */
    method Extend()
      modifies this`channels
      ensures fresh(channels)
      ensures State() == old(State()).(channels := old(channels[..]) + seq(10, _ => FREE_CHANNEL))
    {
      var n := channels.Length;
      var larger := new Channel[n + 10](_ => FREE_CHANNEL);
      forall k | 0 <= k < n {
        larger[k] := channels[k];
      }
      assert larger[..] == channels[..] + seq(10, _ => FREE_CHANNEL);
      channels := larger;
    }

    /** The first part of channel_allocate: room for one more, and where to look for it. */
    method MakeRoom() returns (i: int)
      requires WellFormed(State())
      modifies this`channels
      ensures State() == Grow(old(State()))
      ensures if channelsUsed == old(channels.Length) then fresh(channels) else channels == old(channels)
      ensures i == if channelsUsed == old(channels.Length) && old(channels.Length) != 0 then old(channels.Length) else 0
    {
      NumUsedFull(channels[..]);
      if channels.Length == 0 {
        Extend();
      }
      i := 0;
      if channelsUsed == channels.Length {
        i := channels.Length;
        Extend();
      }
    }

    /** The search of channel_allocate. */
    method FindSlot() returns (i: int)
      requires WellFormed(State())
      modifies this`channels
      ensures State() == Grow(old(State()))
      ensures if channelsUsed == old(channels.Length) then fresh(channels) else channels == old(channels)
      ensures i == Slot(old(State())) < channels.Length
    {
      AllocateFindsSlot(State());
      if channelsUsed == channels.Length {
        NumUsedFull(channels[..]);
      }
      i := MakeRoom();
      while i < channels.Length && channels[i].kind != Free
        invariant 0 <= i <= channels.Length
        invariant forall j :: 0 <= j < i ==> channels[j].kind != Free
      {
        i := i + 1;
      }
    }

    /** channel_allocate on a new socket. */
    method Allocate(kind: Kind, remoteId: int, isX: bool, service: Service) returns (i: int)
      requires WellFormed(State())
      modifies this, channels
      ensures if old(channelsUsed) == old(channels.Length) then fresh(channels) else channels == old(channels)
      ensures Slot(old(State())) < |Grow(old(State())).channels|
      ensures i == Slot(old(State())) && !old(State()).Live(i)
      ensures State() == Channels.Allocate(old(State()), kind, remoteId, isX, service)
    {
      hide FirstFree;
      AllocateFindsSlot(State());
      i := FindSlot();
      Write(i, Channel(kind, |sockets|, remoteId, NO_STATUS, [], [], isX, service));
      sockets := sockets + [Socket([], [], false)];
      channelsUsed := channelsUsed + 1;
    }

    /** channel_request_local_forwarding and its companions. */
    method Listen(service: Service) returns (i: int)
      requires WellFormed(State())
      modifies this, channels
      ensures if old(channelsUsed) == old(channels.Length) then fresh(channels) else channels == old(channels)
      ensures i == Slot(old(State())) < |Grow(old(State())).channels|
      ensures State() == Channels.Allocate(old(State()), Listener, -1, false, service) && WellFormed(State())
    {
      AllocateWellFormed(State(), Listener, -1, false, service);
      i := Allocate(Listener, -1, false, service);
    }

    /** channel_free. */
    method Release(i: int)
      requires State().Live(i)
      modifies this, channels
      ensures channels == old(channels)
      ensures State() == ChannelFree(old(State()), i)
    {
      Write(i, channels[i].(input := [], output := []));
      Write(i, channels[i].(kind := Free));
      channelsUsed := channelsUsed - 1;
    }

    method CheckTermination(i: int)
      requires State().Live(i)
      modifies this, channels
      ensures channels == old(channels)
      ensures State() == Channels.CheckTermination(old(State()), i)
    {
      if channels[i].status.Terminates() {
        Release(i);
      }
    }

    method SetStatus(i: int, st: Status)
      requires State().Live(i)
      modifies channels
      ensures State() == old(State()).SetStatus(i, st)
    {
      Write(i, channels[i].(status := st));
    }

    method SendIeof(i: int)
      requires State().Live(i)
      modifies this, channels
      ensures channels == old(channels)
      ensures State() == Channels.SendIeof(old(State()), i)
    {
      if !channels[i].status.eofSent {
        SetStatus(i, channels[i].status.(eofSent := true));
        PacketSend(InputEof(channels[i].remoteId));
        CheckTermination(i);
      }
    }

    method SendOclosed(i: int)
      requires State().Live(i)
      modifies this, channels
      ensures channels == old(channels)
      ensures State() == Channels.SendOclosed(old(State()), i)
    {
      if !channels[i].status.closeSent {
        SetStatus(i, channels[i].status.(closeSent := true));
        PacketSend(OutputClosed(channels[i].remoteId));
        CheckTermination(i);
      }
    }

    method CloseInput(i: int)
      requires State().Live(i)
      modifies this, channels
      ensures channels == old(channels)
      ensures State() == Channels.CloseInput(old(State()), i)
    {
      if !channels[i].status.inputClosed {
        SetStatus(i, channels[i].status.(inputClosed := true));
        if channels[i].kind != Open {
          SendIeof(i);
        }
      }
    }

    method CloseOutput(i: int)
      requires State().Live(i)
      modifies this, channels
      ensures channels == old(channels)
      ensures State() == Channels.CloseOutput(old(State()), i)
    {
      if !channels[i].status.outputClosed {
        SetStatus(i, channels[i].status.(outputClosed := true));
        if |channels[i].output| > 0 {
          Write(i, channels[i].(output := []));
        }
        SendOclosed(i);
      }
    }

    method ReceiveIeof(i: int) returns (v: Verdict)
      requires State().Live(i)
      modifies this, channels
      ensures channels == old(channels)
      ensures v.Continue? ==> Channels.ReceiveIeof(old(State()), i) == Done(State())
      ensures v.Quit? ==> Channels.ReceiveIeof(old(State()), i) == Disconnect(v.reason)
      ensures v.Aborted? ==> Channels.ReceiveIeof(old(State()), i) == AssertionFailed
    {
      if channels[i].status.eofReceived {
        return Quit("Received double input eof.");
      }
      SetStatus(i, channels[i].status.(eofReceived := true));
      if channels[i].isX {
        CloseInput(i);
      }
      if channels[i].kind == Free {
        return Aborted;
      }
      if channels[i].kind != Open {
        CloseOutput(i);
      }
      if channels[i].kind == Free {
        return Aborted;
      }
      CheckTermination(i);
      v := Continue;
    }

    method ReceiveOclosed(i: int) returns (v: Verdict)
      requires State().Live(i)
      modifies this, channels
      ensures channels == old(channels)
      ensures v.Continue? ==> Channels.ReceiveOclosed(old(State()), i) == Done(State())
      ensures v.Quit? ==> Channels.ReceiveOclosed(old(State()), i) == Disconnect(v.reason)
      ensures v.Aborted? ==> Channels.ReceiveOclosed(old(State()), i) == AssertionFailed
    {
      hide Channels.CloseInput, Channels.CheckTermination;
      if channels[i].status.closeReceived {
        return Quit("Received double close.");
      }
      SetStatus(i, channels[i].status.(closeReceived := true));
      Write(i, channels[i].(input := []));
      ghost var ch := old(channels[i]);
      assert State() == old(State()).Put(i, ch.(status := ch.status.(closeReceived := true), input := []));
      CloseInput(i);
      if channels[i].kind == Free {
        return Aborted;
      }
      CheckTermination(i);
      v := Continue;
    }

    /** channel_input_port_open; `accept` says whether the target could be connected to. */
    method InputPortOpen(remote: int, accept: bool, isX: bool)
      requires WellFormed(State())
      modifies this, channels
      ensures channels == old(channels) || fresh(channels)
      ensures Channels.InputPortOpen(old(State()), remote, accept, isX) == Done(State())
    {
      hide Channels.Allocate;
      if accept {
        var i := Allocate(Open, remote, isX, NoService);
        PacketSend(OpenConfirmation(remote, i));
      } else {
        PacketSend(OpenFailure(remote));
      }
    }

    /** channel_input_open_confirmation */
    method InputOpenConfirmation(i: int, remote: int) returns (v: Verdict)
      modifies channels
      ensures v.Continue? ==> Channels.InputOpenConfirmation(old(State()), i, remote) == Done(State())
      ensures v.Quit? ==> Channels.InputOpenConfirmation(old(State()), i, remote) == Disconnect(v.reason)
      ensures !v.Aborted?
    {
      if i < 0 || i >= channels.Length || channels[i].kind != Opening {
        return Quit("Received open confirmation for non-opening channel.");
      }
      Write(i, channels[i].(remoteId := remote));
      Write(i, channels[i].(kind := Open));
      v := Continue;
    }

    /** channel_input_open_failure */
    method InputOpenFailure(i: int) returns (v: Verdict)
      modifies this, channels
      ensures channels == old(channels) && !v.Aborted?
      ensures v.Continue? ==> Channels.InputOpenFailure(old(State()), i) == Done(State())
      ensures v.Quit? ==> Channels.InputOpenFailure(old(State()), i) == Disconnect(v.reason)
    {
      if i < 0 || i >= channels.Length || channels[i].kind != Opening {
        return Quit("Received open failure for non-opening channel.");
      }
      Release(i);
      v := Continue;
    }

    /** channel_input_data */
    method InputData(i: int, data: seq<byte>) returns (v: Verdict)
      modifies channels
      ensures v.Continue? ==> Channels.InputData(old(State()), i, data) == Done(State())
      ensures v.Quit? ==> Channels.InputData(old(State()), i, data) == Disconnect(v.reason)
      ensures !v.Aborted?
    {
      if i < 0 || i >= channels.Length || channels[i].kind == Free {
        return Quit("Received data for nonexistent channel.");
      }
      v := Continue;
      if channels[i].kind != Open {
        return;
      }
      if channels[i].status.eofReceived {
        return Quit("Other party sent data after eof.");
      }
      if !channels[i].status.outputClosed {
        Write(i, channels[i].(output := channels[i].output + data));
      }
    }

    /** The dispatch of serverloop.c:193-256 to the handlers of newchannels.c. */
    method Receive(m: Message, accept: bool, isX: bool) returns (v: Verdict)
      requires WellFormed(State())
      modifies this, channels
      ensures channels == old(channels) || fresh(channels)
      ensures v.Continue? ==> Channels.Receive(old(State()), m, accept, isX) == Done(State())
      ensures v.Quit? ==> Channels.Receive(old(State()), m, accept, isX) == Disconnect(v.reason)
      ensures v.Aborted? ==> Channels.Receive(old(State()), m, accept, isX) == AssertionFailed
    {
      hide Channels.ReceiveIeof, Channels.ReceiveOclosed, Channels.InputPortOpen, Channels.InputData,
          Channels.InputOpenConfirmation, Channels.InputOpenFailure, WellFormed;
      match m
      case PortOpen(remote, _) =>
        InputPortOpen(remote, accept, isX);
        v := Continue;
      case OpenConfirmation(i, remote) =>
        v := InputOpenConfirmation(i, remote);
      case OpenFailure(i) =>
        v := InputOpenFailure(i);
      case Data(i, data) =>
        v := InputData(i, data);
      case InputEof(i) =>
        if i < 0 || i >= channels.Length || channels[i].kind == Free {
          return Quit("Received ieof for nonexistent channel.");
        }
        v := ReceiveIeof(i);
      case OutputClosed(i) =>
        if i < 0 || i >= channels.Length || channels[i].kind == Free {
          return Quit("Received oclosed for nonexistent channel.");
        }
        v := ReceiveOclosed(i);
    }

    /** channel_prepare_select: exactly the sockets of listeners, of open inputs with room and of open
        outputs with something to write are put under watch.  The `drained` mark is history. */
    method PrepareSelect(maxPacket: nat) returns (w: Watch)
      requires WellFormed(State())
      modifies this, channels
      ensures channels == old(channels)
      ensures forall s :: s in w.readset <==> ChannelLaws.ReadsFrom(old(channels[..]), 0, maxPacket, s)
      ensures forall s :: s in w.writeset <==> ChannelLaws.WritesFrom(old(channels[..]), 0, s)
      ensures (State(), w) == PreparePass(old(State()), 0, Watch({}, {}), maxPacket)
      ensures WellFormed(State())
    {
      w := Watch({}, {});
      var i := 0;
      ChannelLaws.PreparePassWatch(State(), 0, w, maxPacket);
      ghost var goal := PreparePass(State(), 0, w, maxPacket);
      while i < channels.Length
        invariant 0 <= i <= channels.Length && WellFormed(State())
        invariant channels == old(channels)
        invariant PreparePass(State(), i, w, maxPacket) == goal
      {
        PrepareSlotWellFormed(State(), i, w, maxPacket);
        w := PrepareChannel(i, w, maxPacket);
        i := i + 1;
      }
    }

    /** One slot of channel_prepare_select. */
    method PrepareChannel(i: int, w: Watch, maxPacket: nat) returns (w': Watch)
      requires 0 <= i < channels.Length && (0 <= channels[i].sock < |sockets| || channels[i].kind != Open)
      modifies this, channels
      ensures channels == old(channels)
      ensures (State(), w') == PrepareSlot(old(State()), i, w, maxPacket)
    {
      w' := w;
      var ch := channels[i];
      match ch.kind {
        case Listener =>
          w' := w.(readset := w.readset + {ch.sock});
        case Open =>
          if |ch.input| < maxPacket / 2 && !ch.status.inputClosed {
            w' := w.(readset := w.readset + {ch.sock});
          }
          if !ch.status.outputClosed {
            if |ch.output| > 0 {
              w' := w'.(writeset := w'.writeset + {ch.sock});
            } else if ch.status.eofReceived {
              sockets := sockets[ch.sock := sockets[ch.sock].(drained := true)];
              CloseOutput(i);
            }
          }
        case _ =>
      }
    }

    /** The socket of slot i is readable: read() and buffer_append, or close the input.
        Returns whether anything was read. */
    method ReadSocket(i: int, incoming: seq<byte>, maxPacket: nat) returns (some: bool)
      requires State().Live(i) && 0 <= channels[i].sock < |sockets|
      modifies this, channels
      ensures channels == old(channels)
      ensures State() == ReadSome(old(State()), i, incoming, maxPacket)
      ensures some == (|incoming[..Min(|incoming|, Min(16384, maxPacket / 4))]| > 0)
    {
      var len := 16384;
      if len > maxPacket / 4 {
        len := maxPacket / 4;
      }
      var got := if |incoming| < len then incoming else incoming[..len];
      assert got == incoming[..Min(|incoming|, Min(16384, maxPacket / 4))];
      some := |got| > 0;
      if some {
        var s := channels[i].sock;
        sockets := sockets[s := sockets[s].(read := sockets[s].read + got)];
        Write(i, channels[i].(input := channels[i].input + got));
      } else {
        CloseInput(i);
      }
    }

    /** The socket of slot i is writable: write() and buffer_consume, or close the output. */
    method WriteSocket(i: int, room: nat)
      requires State().Live(i) && 0 <= channels[i].sock < |sockets|
      modifies this, channels
      ensures channels == old(channels)
      ensures State() == WriteSome(old(State()), i, room)
    {
      var len := if room < |channels[i].output| then room else |channels[i].output|;
      if len <= 0 {
        CloseOutput(i);
      } else {
        var s := channels[i].sock;
        sockets := sockets[s := sockets[s].(written := sockets[s].written + channels[i].output[..len])];
        Write(i, channels[i].(output := channels[i].output[len..]));
      }
    }

    /** channel_after_select.  The loop bound is the current number of slots, which grows
        when a listener accepts a connection and the table is full. */
    method AfterSelect(w: Watch, events: seq<Event>, maxPacket: nat)
      requires WellFormed(State())
      modifies this, channels
      ensures channels == old(channels) || fresh(channels)
      ensures State() == AfterPass(old(State()), 0, old(channels.Length), w, events, maxPacket)
      ensures WellFormed(State())
    {
      hide AfterSlot, AfterPass, WellFormed, QuietFrom;
      var i := 0;
      ghost var n := channels.Length;
      PassStarts(State(), w, events, maxPacket);
      ghost var goal := AfterPass(State(), 0, n, w, events, maxPacket);
      while i < channels.Length
        invariant 0 <= i <= channels.Length && n <= channels.Length && WellFormed(State())
        invariant channels == old(channels) || fresh(channels)
        invariant QuietFrom(State(), n)
        invariant if i < n then AfterPass(State(), i, n, w, events, maxPacket) == goal else State() == goal
        decreases if i < n then n - i else 0, channels.Length - i
      {
        var e := if i < |events| then events[i] else NO_EVENT;
        PassStep(State(), i, n, w, events, maxPacket);
        AfterTurn(i, w, e, maxPacket);
        i := i + 1;
      }
    }

    /** One turn of the loop of channel_after_select. */
    method AfterTurn(i: int, w: Watch, e: Event, maxPacket: nat)
      requires WellFormed(State()) && 0 <= i < channels.Length
      modifies this, channels
      ensures channels == old(channels) || fresh(channels)
      ensures Slot(old(State())) < |Grow(old(State())).channels|
      ensures State() == AfterSlot(old(State()), i, w, e, maxPacket)
    {
      AllocateFindsSlot(State());
      var ch := channels[i];
      match ch.kind {
        case Listener =>
          if ch.sock in w.readset && e.readable {
            AcceptConnection(i, e.stale);
          }
        case Open =>
          SelectedChannel(i, w, e, maxPacket);
        case _ =>
      }
    }

    /** A listener's connection.  The port listener is read through the array that was there before
        the allocation; when that was replaced, `stale` is what its memory holds. */
    method AcceptConnection(i: int, stale: Address)
      requires WellFormed(State()) && 0 <= i < channels.Length && channels[i].kind == Listener
      modifies this, channels
      ensures channels == old(channels) || fresh(channels)
      ensures channels == old(channels) <==> old(channelsUsed) != old(channels.Length)
      ensures Slot(old(State())) < |Grow(old(State())).channels|
      ensures State() == Channels.Allocate(old(State()), Opening, -1, old(channels[i].service.X11Service?), NoService)
                         .Send(PortOpen(Slot(old(State())), Requested(old(State()), i, stale)))
    {
      var before := channels;
      var service := channels[i].service;
      var newch := Allocate(Opening, -1, service.X11Service?, NoService);
      if service.PortService? && channels != before {
        service := PortService(stale);
      }
      PacketSend(PortOpen(newch, service));
    }

    /** The SSH_CHANNEL_OPEN case of channel_after_select. */
    method SelectedChannel(i: int, w: Watch, e: Event, maxPacket: nat)
      requires WellFormed(State()) && State().Live(i) && channels[i].kind == Open
      modifies this, channels
      ensures channels == old(channels)
      ensures Slot(old(State())) < |Grow(old(State())).channels|
      ensures State() == AfterSlot(old(State()), i, w, e, maxPacket)
      ensures forall j :: 0 <= j < channels.Length && j != i ==> channels[j] == old(channels[j])
    {
      AllocateFindsSlot(State());
      var sock := channels[i].sock;
      if sock in w.readset && e.readable && !e.readBlocks {
        var some := ReadSocket(i, e.incoming, maxPacket);
        if !some {
          return;
        }
      }
      if sock in w.writeset && e.writable && |channels[i].output| > 0 && !e.writeBlocks {
        WriteSocket(i, e.room);
      }
    }

    /** channel_output_poll: `slots` is where the connection's output got too full. */
    method OutputPoll(slots: nat, interactive: bool, maxPacket: nat)
      requires WellFormed(State()) && slots <= channels.Length
      modifies this, channels
      ensures channels == old(channels)
      ensures State() == PollPass(old(State()), 0, slots, interactive, maxPacket)
      ensures WellFormed(State())
    {
      var i := 0;
      ghost var goal := PollPass(State(), 0, slots, interactive, maxPacket);
      while i < slots
        invariant 0 <= i <= slots <= channels.Length && WellFormed(State())
        invariant channels == old(channels)
        invariant PollPass(State(), i, slots, interactive, maxPacket) == goal
      {
        hide PollSlot, WellFormed;
        PollSlotWellFormed(State(), i, interactive, maxPacket);
        PollChannel(i, interactive, maxPacket);
        i := i + 1;
      }
    }

    /** One turn of the loop of channel_output_poll. */
    method PollChannel(i: int, interactive: bool, maxPacket: nat)
      requires 0 <= i < channels.Length
      modifies this, channels
      ensures channels == old(channels)
      ensures State() == PollSlot(old(State()), i, interactive, maxPacket)
    {
      hide Channels.SendIeof;
      if channels[i].kind == Open {
        var len := |channels[i].input|;
        if len > 0 {
          if interactive {
            if len > 512 { len := 512; }
          } else {
            if len > 8192 { len := 8192; }
            if len > maxPacket / 2 { len := maxPacket / 2; }
          }
          PacketSend(Data(channels[i].remoteId, channels[i].input[..len]));
          Write(i, channels[i].(input := channels[i].input[len..]));
        } else if channels[i].status.inputClosed && !channels[i].status.eofSent {
          SendIeof(i);
        }
      }
    }
  }
  /** k slots of ten hold listeners for the address, the others are free. */
  ghost predicate Listening(t: Table, k: nat, address: Address) {
    && 0 < k <= 10 == |t.channels| && t.used == k && t.wire == [] && WellFormed(t)
    && (forall j :: 0 <= j < k ==> t.channels[j].kind == Listener && t.channels[j].service == PortService(address))
    && (forall j :: k <= j < 10 ==> t.channels[j].kind == Free)
  }

  lemma FirstListener(address: Address)
    ensures Slot(EMPTY_TABLE) < |Grow(EMPTY_TABLE).channels|
    ensures Listening(Channels.Allocate(EMPTY_TABLE, Listener, -1, false, PortService(address)), 1, address)
  {
    AllocateWellFormed(EMPTY_TABLE, Listener, -1, false, PortService(address));
  }

  lemma NextListener(t: Table, k: nat, address: Address)
    requires Listening(t, k, address) && k < 10
    ensures Slot(t) < |Grow(t).channels|
    ensures Listening(Channels.Allocate(t, Listener, -1, false, PortService(address)), k + 1, address)
  {
    AllocateWellFormed(t, Listener, -1, false, PortService(address));
    var r := FirstFree(t.channels, 0);
    assert t.channels[k].kind == Free;
    assert r < 10 && t.channels[r].kind == Free;
    assert r == k;
  }

  /**
   Ten port listeners fill the table.  The request for the first connection then names whatever
   freed memory holds, although every listener offers the one address.
   */
  method FullTable(address: Address, stale: Address) returns (table: ChannelTable)
    ensures fresh(table) && table.wire == [PortOpen(10, PortService(stale))]
    ensures forall j :: 0 <= j < 10 ==>
              j < table.channels.Length && table.channels[j].kind == Listener &&
              table.channels[j].service == PortService(address)
  {
    hide Listening;
    table := new ChannelTable();
    EmptyIsWellFormed();
    FirstListener(address);
    var first := table.Listen(PortService(address));
    var k := 1;
    while k < 10
      invariant 1 <= k <= 10 && Listening(table.State(), k, address)
      invariant fresh(table) && fresh(table.channels) && WellFormed(table.State())
    {
      NextListener(table.State(), k, address);
      var i := table.Listen(PortService(address));
      k := k + 1;
    }
    ghost var t := table.State();
    FullIsTaken(t, address, stale);
    ListeningHere(t, address);
    hide WellFormed, Slot, Grow, Requested;
    table.AcceptConnection(0, stale);
    ghost var t' := Channels.Allocate(t, Opening, -1, false, NoService);
    assert table.State() == t'.Send(PortOpen(10, PortService(stale)));
    assert table.State().channels == t'.channels;
    hide Channels.Allocate;
  }

  lemma EmptyIsWellFormed()
    ensures WellFormed(EMPTY_TABLE)
  {
  }

  lemma ListeningHere(t: Table, address: Address)
    requires Listening(t, 10, address)
    ensures |t.channels| == 10 && t.channels[0].kind == Listener
  {
  }

  lemma FullIsTaken(t: Table, address: Address, stale: Address)
    requires Listening(t, 10, address)
    ensures Slot(t) == 10 && Requested(t, 0, stale) == PortService(stale) && t.wire == []
    ensures Slot(t) < |Grow(t).channels|
    ensures var t' := Channels.Allocate(t, Opening, -1, false, NoService);
            forall j :: 0 <= j < 10 ==>
              j < |t'.channels| && t'.channels[j].kind == Listener && t'.channels[j].service == PortService(address)
    ensures t.channels[0].service == PortService(address)
  {
    AllocateFindsSlot(t);
    var g := Grow(t).channels;
    assert forall j :: 0 <= j < 10 ==> g[j] == t.channels[j] && g[j].kind == Listener;
    assert g[10] == FREE_CHANNEL;
    assert g[FirstFree(g, 0)].kind == Free;
    assert FirstFree(g, 0) == 10;
  }
}
