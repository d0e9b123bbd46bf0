/**
 The channel layer of one endpoint (newchannels.c) as a value: the slot table, the
 sockets behind it and the messages handed to the packet layer.  Every handler of the
 source is a function from one table to the next; class `ChannelTable` performs the same
 handlers in place and is proved equal to them.
 */
module Channels {
  import opened Bytes

  datatype Kind = Free | Listener | Opening | Open

  /** The six status bits of newchannels.c:324-329. */
  datatype Status = Status(
    inputClosed: bool, outputClosed: bool,
    eofSent: bool, eofReceived: bool,
    closeSent: bool, closeReceived: bool)
  {
    /** All bits of STATUS_TERMINATE are set. */
    predicate Terminates() {
      inputClosed && outputClosed && eofSent && eofReceived && closeSent && closeReceived
    }
  }

  const NO_STATUS := Status(false, false, false, false, false, false)

  /** Where a forwarded port leads: ch->path and ch->host_port. */
  datatype Address = Address(path: seq<byte>, port: nat)

  /** What a listener offers; other channels have none. */
  datatype Service = NoService | X11Service | AgentService | PortService(address: Address)

  datatype Channel = Channel(
    kind: Kind, sock: int, remoteId: int, status: Status,
    input: seq<byte>, output: seq<byte>, isX: bool, service: Service)

  const FREE_CHANNEL := Channel(Free, -1, -1, NO_STATUS, [], [], false, NoService)

  /** What the operating system has seen of a socket.  `drained` records that its
      output side was closed because EOF was received and nothing was left to write. */
  datatype Socket = Socket(read: seq<byte>, written: seq<byte>, drained: bool)

  datatype Message =
    | PortOpen(sender: int, service: Service)
    | OpenConfirmation(id: int, sender: int)
    | OpenFailure(id: int)
    | Data(id: int, data: seq<byte>)
    | InputEof(id: int)
    | OutputClosed(id: int)

  /** `wire` holds the messages sent and not yet received by the other end. */
  datatype Table = Table(channels: seq<Channel>, used: int, sockets: seq<Socket>, wire: seq<Message>)
  {
    predicate Live(i: int) { 0 <= i < |channels| && channels[i].kind != Free }

    function Put(i: int, ch: Channel): Table
      requires 0 <= i < |channels|
    {
      this.(channels := channels[i := ch])
    }

    function SetStatus(i: int, st: Status): Table
      requires 0 <= i < |channels|
    {
      Put(i, channels[i].(status := st))
    }

    function Send(m: Message): Table { this.(wire := wire + [m]) }
  }

  const EMPTY_TABLE := Table([], 0, [], [])

  datatype Outcome =
    | Done(table: Table)
    | Disconnect(reason: string)
    | AssertionFailed

  // ---------- slots ----------

  function NumUsed(channels: seq<Channel>): nat {
    if channels == [] then 0
    else (if channels[0].kind == Free then 0 else 1) + NumUsed(channels[1..])
  }

  /** Index of the first free slot at or after i, or the number of slots. */
  function FirstFree(channels: seq<Channel>, i: nat): (r: nat)
    requires i <= |channels|
    ensures i <= r <= |channels|
    ensures r < |channels| ==> channels[r].kind == Free
    ensures forall j :: i <= j < r ==> channels[j].kind != Free
    decreases |channels| - i
  {
    if i == |channels| || channels[i].kind == Free then i else FirstFree(channels, i + 1)
  }

  /** The growth steps of channel_allocate: ten slots at first use, ten more when full. */
  function Grow(t: Table): Table {
    if |t.channels| == 0 || t.used == |t.channels|
    then t.(channels := t.channels + seq(10, _ => FREE_CHANNEL))
    else t
  }

  /** The slot channel_allocate chooses. */
  function Slot(t: Table): nat { FirstFree(Grow(t).channels, 0) }

  /** channel_allocate for a fresh socket, followed by the caller's assignments to
      remote_id, is_x_connection, path and host_port. */
  function Allocate(t: Table, kind: Kind, remoteId: int, isX: bool, service: Service): Table
    requires Slot(t) < |Grow(t).channels|
  {
    var g := Grow(t);
    var ch := Channel(kind, |t.sockets|, remoteId, NO_STATUS, [], [], isX, service);
    g.(channels := g.channels[Slot(t) := ch], used := g.used + 1,
       sockets := g.sockets + [Socket([], [], false)])
  }

  function ChannelFree(t: Table, i: int): Table
    requires t.Live(i)
  {
    t.Put(i, t.channels[i].(kind := Free, input := [], output := [])).(used := t.used - 1)
  }

  // ---------- the close handshake ----------

  function CheckTermination(t: Table, i: int): Table
    requires t.Live(i)
  {
    if t.channels[i].status.Terminates() then ChannelFree(t, i) else t
  }

  function SendIeof(t: Table, i: int): Table
    requires t.Live(i)
  {
    var ch := t.channels[i];
    if ch.status.eofSent then t
    else CheckTermination(t.SetStatus(i, ch.status.(eofSent := true)).Send(InputEof(ch.remoteId)), i)
  }

  function SendOclosed(t: Table, i: int): Table
    requires t.Live(i)
  {
    var ch := t.channels[i];
    if ch.status.closeSent then t
    else CheckTermination(t.SetStatus(i, ch.status.(closeSent := true)).Send(OutputClosed(ch.remoteId)), i)
  }

  function CloseInput(t: Table, i: int): Table
    requires t.Live(i)
  {
    var ch := t.channels[i];
    if ch.status.inputClosed then t
    else
      var t1 := t.SetStatus(i, ch.status.(inputClosed := true));
      if ch.kind != Open then SendIeof(t1, i) else t1
  }

  function CloseOutput(t: Table, i: int): Table
    requires t.Live(i)
  {
    var ch := t.channels[i];
    if ch.status.outputClosed then t
    else SendOclosed(t.Put(i, ch.(status := ch.status.(outputClosed := true), output := [])), i)
  }

  /** After a nested close the slot may already be free; its flags are then all set, so
      the last termination check trips the assertion of channel_free. */
  function ReceiveIeof(t: Table, i: int): Outcome
    requires t.Live(i)
  {
    var ch := t.channels[i];
    if ch.status.eofReceived then Disconnect("Received double input eof.")
    else
      var t1 := t.SetStatus(i, ch.status.(eofReceived := true));
      var t2 := if ch.isX then CloseInput(t1, i) else t1;
      if !t2.Live(i) then AssertionFailed
      else
        var t3 := if ch.kind != Open then CloseOutput(t2, i) else t2;
        if !t3.Live(i) then AssertionFailed else Done(CheckTermination(t3, i))
  }

  function ReceiveOclosed(t: Table, i: int): Outcome
    requires t.Live(i)
  {
    var ch := t.channels[i];
    if ch.status.closeReceived then Disconnect("Received double close.")
    else
      var t1 := t.Put(i, ch.(status := ch.status.(closeReceived := true), input := []));
      var t2 := CloseInput(t1, i);
      if !t2.Live(i) then AssertionFailed else Done(CheckTermination(t2, i))
  }

  // ---------- messages from the other end ----------

  function InputData(t: Table, i: int, data: seq<byte>): Outcome {
    if !t.Live(i) then Disconnect("Received data for nonexistent channel.")
    else
      var ch := t.channels[i];
      if ch.kind != Open then Done(t)
      else if ch.status.eofReceived then Disconnect("Other party sent data after eof.")
      else if ch.status.outputClosed then Done(t)
      else Done(t.Put(i, ch.(output := ch.output + data)))
  }

  function InputOpenConfirmation(t: Table, i: int, remote: int): Outcome {
    if !(0 <= i < |t.channels|) || t.channels[i].kind != Opening
    then Disconnect("Received open confirmation for non-opening channel.")
    else Done(t.Put(i, t.channels[i].(remoteId := remote, kind := Open)))
  }

  function InputOpenFailure(t: Table, i: int): Outcome {
    if !(0 <= i < |t.channels|) || t.channels[i].kind != Opening
    then Disconnect("Received open failure for non-opening channel.")
    else Done(ChannelFree(t, i))
  }

  /** An open request: `accept` says whether the open is permitted and the connection to
      the target succeeded, `isX` whether it is an X11 connection. */
  function InputPortOpen(t: Table, remote: int, accept: bool, isX: bool): Outcome {
    if !accept then Done(t.Send(OpenFailure(remote)))
    else if Slot(t) == |Grow(t).channels| then AssertionFailed
    else Done(Allocate(t, Open, remote, isX, NoService).Send(OpenConfirmation(remote, Slot(t))))
  }

  function Receive(t: Table, m: Message, accept: bool, isX: bool): Outcome {
    match m
    case PortOpen(remote, _) => InputPortOpen(t, remote, accept, isX)
    case OpenConfirmation(i, remote) => InputOpenConfirmation(t, i, remote)
    case OpenFailure(i) => InputOpenFailure(t, i)
    case Data(i, data) => InputData(t, i, data)
    case InputEof(i) =>
      if !t.Live(i) then Disconnect("Received ieof for nonexistent channel.") else ReceiveIeof(t, i)
    case OutputClosed(i) =>
      if !t.Live(i) then Disconnect("Received oclosed for nonexistent channel.") else ReceiveOclosed(t, i)
  }

  // ---------- the select loop ----------

  /** Sockets select() is asked to watch. */
  datatype Watch = Watch(readset: set<int>, writeset: set<int>)

  function Min(a: int, b: int): int { if a < b then a else b }

  /** One slot of channel_prepare_select; the drained mark is history. */
  function PrepareSlot(t: Table, i: int, w: Watch, maxPacket: nat): (Table, Watch)
    requires 0 <= i < |t.channels|
    requires 0 <= t.channels[i].sock < |t.sockets| || t.channels[i].kind != Open
  {
    var ch := t.channels[i];
    match ch.kind
    case Listener => (t, w.(readset := w.readset + {ch.sock}))
    case Open =>
      var w1 := if |ch.input| < maxPacket / 2 && !ch.status.inputClosed
                then w.(readset := w.readset + {ch.sock}) else w;
      if ch.status.outputClosed then (t, w1)
      else if |ch.output| > 0 then (t, w1.(writeset := w1.writeset + {ch.sock}))
      else if ch.status.eofReceived then
        (CloseOutput(t.(sockets := t.sockets[ch.sock := t.sockets[ch.sock].(drained := true)]), i), w1)
      else (t, w1)
    case _ => (t, w)
  }

  /** What select(), read(), write() and accept() answer for one slot.  A read returns a
      prefix of `incoming` limited by the caller's buffer, nothing meaning EOF or error;
      a write takes at most `room` bytes, zero meaning error; `stale` is what freed memory holds. */
  datatype Event = Event(
    readable: bool, readBlocks: bool, incoming: seq<byte>,
    writable: bool, writeBlocks: bool, room: nat,
    stale: Address)

  const NO_EVENT := Event(false, false, [], false, false, 0, Address([], 0))

  /** The service named in the request of the listener in slot i.  A port listener is read after
      channel_allocate, through the pointer taken before it: when the array had to be moved, that
      is whatever the freed memory holds. */
  function Requested(t: Table, i: int, stale: Address): Service
    requires 0 <= i < |t.channels|
  {
    if t.channels[i].service.PortService? && t.used == |t.channels| then PortService(stale) else t.channels[i].service
  }

  function ReadSome(t: Table, i: int, incoming: seq<byte>, maxPacket: nat): Table
    requires 0 <= i < |t.channels| && 0 <= t.channels[i].sock < |t.sockets| && t.Live(i)
  {
    var ch := t.channels[i];
    var got := incoming[..Min(|incoming|, Min(16384, maxPacket / 4))];
    var s := t.sockets[ch.sock];
    if |got| == 0 then CloseInput(t, i)
    else t.Put(i, ch.(input := ch.input + got)).(sockets := t.sockets[ch.sock := s.(read := s.read + got)])
  }

  function WriteSome(t: Table, i: int, room: nat): Table
    requires 0 <= i < |t.channels| && 0 <= t.channels[i].sock < |t.sockets| && t.Live(i)
  {
    var ch := t.channels[i];
    var n := Min(room, |ch.output|);
    var s := t.sockets[ch.sock];
    if n == 0 then CloseOutput(t, i)
    else t.Put(i, ch.(output := ch.output[n..])).(sockets := t.sockets[ch.sock := s.(written := s.written +
        ch.output[..n])])
  }

  /** One slot of channel_after_select. */
  function AfterSlot(t: Table, i: int, w: Watch, e: Event, maxPacket: nat): Table
    requires 0 <= i < |t.channels|
    requires 0 <= t.channels[i].sock < |t.sockets| || t.channels[i].kind != Open
    requires Slot(t) < |Grow(t).channels|
  {
    var ch := t.channels[i];
    match ch.kind
    case Listener =>
      if ch.sock in w.readset && e.readable
      then Allocate(t, Opening, -1, ch.service.X11Service?, NoService).Send(PortOpen(Slot(t), Requested(t, i, e.stale)))
      else t
    case Open =>
      var doRead := ch.sock in w.readset && e.readable && !e.readBlocks;
      var t1 := if doRead then ReadSome(t, i, e.incoming, maxPacket) else t;
      if doRead && |e.incoming[..Min(|e.incoming|, Min(16384, maxPacket / 4))]| == 0 then t1
      else if ch.sock in w.writeset && e.writable && |t1.channels[i].output| > 0 && !e.writeBlocks
      then WriteSome(t1, i, e.room)
      else t1
    case _ => t
  }

  /** A connection to a port is requested for the listener's address, whatever freed memory holds,
      if and only if the table had a slot left. */
  lemma RequestReadsListener(t: Table, i: int)
    requires 0 <= i < |t.channels| && t.channels[i].kind == Listener && t.channels[i].service.PortService?
    requires Slot(t) < |Grow(t).channels|
    ensures (forall w: Watch, e: Event, maxPacket: nat :: t.channels[i].sock in w.readset && e.readable ==>
               AfterSlot(t, i, w, e, maxPacket).wire == t.wire + [PortOpen(Slot(t), t.channels[i].service)])
            <==> t.used != |t.channels|
  {
    var address := t.channels[i].service.address;
    var w := Watch({t.channels[i].sock}, {});
    var e := NO_EVENT.(readable := true, stale := address.(port := address.port + 1));
    var wire := AfterSlot(t, i, w, e, 0).wire;
    assert wire[|t.wire|] == PortOpen(Slot(t), Requested(t, i, e.stale));
  }

  /** One slot of channel_output_poll. */
  function PollSlot(t: Table, i: int, interactive: bool, maxPacket: nat): Table
    requires 0 <= i < |t.channels|
  {
    var ch := t.channels[i];
    if ch.kind != Open then t
    else if |ch.input| > 0 then
      var len := if interactive then Min(|ch.input|, 512)
                 else Min(Min(|ch.input|, 8192), maxPacket / 2);
      t.Send(Data(ch.remoteId, ch.input[..len])).Put(i, ch.(input := ch.input[len..]))
    else if ch.status.inputClosed && !ch.status.eofSent then SendIeof(t, i)
    else t
  }

  // ---------- well-formed tables and whole passes ----------

  /** The slot count is right, and channels in use own distinct existing sockets. */
  ghost predicate WellFormed(t: Table) {
    && t.used == NumUsed(t.channels)
    && (forall i :: t.Live(i) ==> 0 <= t.channels[i].sock < |t.sockets|)
    && (forall i, j :: t.Live(i) && t.Live(j) && i != j ==> t.channels[i].sock != t.channels[j].sock)
  }

  lemma {:induction false} NumUsedUpdate(s: seq<Channel>, i: nat, ch: Channel)
    requires i < |s|
    ensures NumUsed(s[i := ch]) ==
            NumUsed(s) + (if ch.kind == Free then 0 else 1) - (if s[i].kind == Free then 0 else 1)
  {
    if i == 0 {
      assert s[0 := ch][1..] == s[1..];
    } else {
      NumUsedUpdate(s[1..], i - 1, ch);
      assert s[i := ch][1..] == s[1..][i - 1 := ch];
    }
  }

  lemma {:induction false} NumUsedAppendFree(s: seq<Channel>, n: nat)
    ensures NumUsed(s + seq(n, _ => FREE_CHANNEL)) == NumUsed(s)
    decreases |s| + n
  {
    var e := seq(n, _ => FREE_CHANNEL);
    if s != [] {
      NumUsedAppendFree(s[1..], n);
      assert (s + e)[1..] == s[1..] + e;
    } else if n > 0 {
      NumUsedAppendFree([], n - 1);
      assert s + e == e && e[1..] == [] + seq(n - 1, _ => FREE_CHANNEL);
    }
  }

  /** The count is at most the number of slots, with equality exactly when none is free. */
  lemma {:induction false} NumUsedFull(s: seq<Channel>)
    ensures NumUsed(s) <= |s|
    ensures NumUsed(s) == |s| <==> forall i :: 0 <= i < |s| ==> s[i].kind != Free
  {
    if s != [] {
      NumUsedFull(s[1..]);
      assert forall i :: 1 <= i < |s| ==> s[i] == s[1..][i - 1];
      assert forall i :: 0 <= i < |s| - 1 ==> s[1..][i] == s[i + 1];
    }
  }

  /** channel_allocate never reaches its "Internal bug" line, and the slot it takes is free. */
  lemma AllocateFindsSlot(t: Table)
    requires WellFormed(t)
    ensures Slot(t) < |Grow(t).channels| && Grow(t).channels[Slot(t)].kind == Free
    ensures NumUsed(Grow(t).channels) == t.used
    ensures forall i :: 0 <= i < |t.channels| ==> Grow(t).channels[i] == t.channels[i]
    ensures forall i :: |t.channels| <= i < |Grow(t).channels| ==> Grow(t).channels[i] == FREE_CHANNEL
    ensures !t.Live(Slot(t))
  {
    NumUsedAppendFree(t.channels, 10);
    NumUsedFull(t.channels);
    NumUsedFull(Grow(t).channels);
  }

  lemma AllocateWellFormed(t: Table, kind: Kind, remoteId: int, isX: bool, service: Service)
    requires WellFormed(t) && kind != Free
    ensures Slot(t) < |Grow(t).channels|
    ensures WellFormed(Allocate(t, kind, remoteId, isX, service))
  {
    AllocateFindsSlot(t);
    var ch := Channel(kind, |t.sockets|, remoteId, NO_STATUS, [], [], isX, service);
    NumUsedUpdate(Grow(t).channels, Slot(t), ch);
  }

  lemma FreeWellFormed(t: Table, i: int)
    requires WellFormed(t) && t.Live(i)
    ensures WellFormed(ChannelFree(t, i))
  {
    NumUsedUpdate(t.channels, i, t.channels[i].(kind := Free, input := [], output := []));
  }

  lemma PutWellFormed(t: Table, i: int, ch: Channel)
    requires WellFormed(t) && t.Live(i) && ch.kind != Free && ch.sock == t.channels[i].sock
    ensures WellFormed(t.Put(i, ch))
  {
    NumUsedUpdate(t.channels, i, ch);
  }

  lemma CheckTerminationWellFormed(t: Table, i: int)
    requires WellFormed(t) && t.Live(i)
    ensures WellFormed(CheckTermination(t, i))
  {
    FreeWellFormed(t, i);
  }

  lemma SendIeofWellFormed(t: Table, i: int)
    requires WellFormed(t) && t.Live(i)
    ensures WellFormed(SendIeof(t, i))
  {
    var ch := t.channels[i];
    PutWellFormed(t, i, ch.(status := ch.status.(eofSent := true)));
    CheckTerminationWellFormed(t.SetStatus(i, ch.status.(eofSent := true)).Send(InputEof(ch.remoteId)), i);
  }

  lemma SendOclosedWellFormed(t: Table, i: int)
    requires WellFormed(t) && t.Live(i)
    ensures WellFormed(SendOclosed(t, i))
  {
    var ch := t.channels[i];
    PutWellFormed(t, i, ch.(status := ch.status.(closeSent := true)));
    CheckTerminationWellFormed(t.SetStatus(i, ch.status.(closeSent := true)).Send(OutputClosed(ch.remoteId)), i);
  }

  lemma CloseInputWellFormed(t: Table, i: int)
    requires WellFormed(t) && t.Live(i)
    ensures WellFormed(CloseInput(t, i)) && |CloseInput(t, i).channels| == |t.channels|
  {
    var ch := t.channels[i];
    PutWellFormed(t, i, ch.(status := ch.status.(inputClosed := true)));
    SendIeofWellFormed(t.SetStatus(i, ch.status.(inputClosed := true)), i);
  }

  lemma CloseOutputWellFormed(t: Table, i: int)
    requires WellFormed(t) && t.Live(i)
    ensures WellFormed(CloseOutput(t, i)) && |CloseOutput(t, i).channels| == |t.channels|
  {
    var ch := t.channels[i];
    PutWellFormed(t, i, ch.(status := ch.status.(outputClosed := true), output := []));
    SendOclosedWellFormed(t.Put(i, ch.(status := ch.status.(outputClosed := true), output := [])), i);
  }

  lemma PrepareSlotWellFormed(t: Table, i: int, w: Watch, maxPacket: nat)
    requires WellFormed(t) && 0 <= i < |t.channels|
    ensures WellFormed(PrepareSlot(t, i, w, maxPacket).0)
    ensures |PrepareSlot(t, i, w, maxPacket).0.channels| == |t.channels|
  {
    if t.channels[i].kind == Open {
      var k := t.channels[i].sock;
      CloseOutputWellFormed(t.(sockets := t.sockets[k := t.sockets[k].(drained := true)]), i);
    }
  }

  lemma AfterSlotWellFormed(t: Table, i: int, w: Watch, e: Event, maxPacket: nat)
    requires WellFormed(t) && 0 <= i < |t.channels|
    ensures Slot(t) < |Grow(t).channels|
    ensures WellFormed(AfterSlot(t, i, w, e, maxPacket))
    ensures |t.channels| <= |AfterSlot(t, i, w, e, maxPacket).channels|
  {
    AllocateFindsSlot(t);
    AllocateWellFormed(t, Opening, -1, t.channels[i].service.X11Service?, NoService);
    if t.channels[i].kind == Open {
      ReadSomeWellFormed(t, i, e.incoming, maxPacket);
      var t1 := ReadSome(t, i, e.incoming, maxPacket);
      if t1.Live(i) { WriteSomeWellFormed(t1, i, e.room); }
      WriteSomeWellFormed(t, i, e.room);
    }
  }

  lemma SocketsWellFormed(t: Table, sockets: seq<Socket>)
    requires WellFormed(t) && |sockets| == |t.sockets|
    ensures WellFormed(t.(sockets := sockets))
  {
    hide NumUsed;
    assert forall i :: t.(sockets := sockets).Live(i) == t.Live(i);
  }

  lemma ReadSomeWellFormed(t: Table, i: int, incoming: seq<byte>, maxPacket: nat)
    requires WellFormed(t) && t.Live(i)
    ensures WellFormed(ReadSome(t, i, incoming, maxPacket))
    ensures |ReadSome(t, i, incoming, maxPacket).channels| == |t.channels|
  {
    CloseInputWellFormed(t, i);
    var ch, t' := t.channels[i], ReadSome(t, i, incoming, maxPacket);
    var b := ch.(input := ch.input + incoming[..Min(|incoming|, Min(16384, maxPacket / 4))]);
    PutWellFormed(t, i, b);
    if |incoming[..Min(|incoming|, Min(16384, maxPacket / 4))]| > 0 {
      SocketsWellFormed(t.Put(i, b), t'.sockets);
    }
    hide WellFormed, CloseInput;
  }

  lemma WriteSomeWellFormed(t: Table, i: int, room: nat)
    requires WellFormed(t) && t.Live(i)
    ensures WellFormed(WriteSome(t, i, room))
    ensures |WriteSome(t, i, room).channels| == |t.channels|
  {
    CloseOutputWellFormed(t, i);
    var ch, t' := t.channels[i], WriteSome(t, i, room);
    var b := ch.(output := ch.output[Min(room, |ch.output|)..]);
    PutWellFormed(t, i, b);
    if Min(room, |ch.output|) > 0 { SocketsWellFormed(t.Put(i, b), t'.sockets); }
    hide WellFormed, CloseOutput;
  }

  lemma PollSlotWellFormed(t: Table, i: int, interactive: bool, maxPacket: nat)
    requires WellFormed(t) && 0 <= i < |t.channels|
    ensures WellFormed(PollSlot(t, i, interactive, maxPacket))
    ensures |PollSlot(t, i, interactive, maxPacket).channels| == |t.channels|
  {
    if t.Live(i) {
      SendIeofWellFormed(t, i);
      var ch := t.channels[i];
      var len := if interactive then Min(|ch.input|, 512) else Min(Min(|ch.input|, 8192), maxPacket / 2);
      PutWellFormed(t, i, ch.(input := ch.input[len..]));
    }
  }

  /** channel_prepare_select from slot i on. */
  function PreparePass(t: Table, i: nat, w: Watch, maxPacket: nat): (r: (Table, Watch))
    requires WellFormed(t) && i <= |t.channels|
    ensures WellFormed(r.0)
    decreases |t.channels| - i
  {
    if i == |t.channels| then (t, w)
    else
      PrepareSlotWellFormed(t, i, w, maxPacket);
      var (t1, w1) := PrepareSlot(t, i, w, maxPacket);
      PreparePass(t1, i + 1, w1, maxPacket)
  }

  /** channel_after_select from slot i up to slot n.  Slots added by the pass itself are
      free or opening, and the loop body does nothing for them. */
  function AfterPass(t: Table, i: nat, n: nat, w: Watch, events: seq<Event>, maxPacket: nat): (r: Table)
    requires WellFormed(t) && i <= n <= |t.channels|
    ensures WellFormed(r)
    decreases n - i
  {
    if i == n then t
    else
      var e := if i < |events| then events[i] else NO_EVENT;
      AfterSlotWellFormed(t, i, w, e, maxPacket);
      AfterPass(AfterSlot(t, i, w, e, maxPacket), i + 1, n, w, events, maxPacket)
  }

  /** One trip through select(): serverloop.c:735-742. */
  function SelectPass(t: Table, events: seq<Event>, maxPacket: nat): (r: Table)
    requires WellFormed(t)
    ensures WellFormed(r)
  {
    var (t1, w) := PreparePass(t, 0, Watch({}, {}), maxPacket);
    AfterPass(t1, 0, |t1.channels|, w, events, maxPacket)
  }

  /** channel_output_poll up to slot n, where the connection's output became too full. */
  function PollPass(t: Table, i: nat, n: nat, interactive: bool, maxPacket: nat): (r: Table)
    requires WellFormed(t) && i <= n <= |t.channels|
    ensures WellFormed(r)
    decreases n - i
  {
    if i == n then t
    else
      PollSlotWellFormed(t, i, interactive, maxPacket);
      PollPass(PollSlot(t, i, interactive, maxPacket), i + 1, n, interactive, maxPacket)
  }
}
