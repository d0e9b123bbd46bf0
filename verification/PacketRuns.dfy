/**
 Whole runs of the packet layer in one direction: any packets, cut into any fragments, polled at
 any moments.  The reader returns exactly the packets sent, without IGNORE and DEBUG, and never
 disconnects.
 */
module PacketRuns {
  import opened Bytes
  import opened MachineWords
  import opened Options
  import opened Modes
  import opened Ciphers
  import opened Bufaux
  import opened Packets
  import CipherContexts

  /** Messages packet_read_poll handles itself and never returns. */
  predicate Hidden(m: Message) { m.kind == SSH_MSG_IGNORE || m.kind == SSH_MSG_DEBUG }

  /** The protocol, DISCONNECT apart: the body of a hidden message is one string. */
  predicate Orderly(m: Message) {
    && m.kind != SSH_MSG_DISCONNECT
    && (Hidden(m) ==> match Get(StrKind, m.body) case Some(g) => g.rest == [] case None => false)
  }

  predicate Proper(m: Message) { Sendable(m) && Orderly(m) }

  datatype Packet = Packet(kind: byte, body: seq<byte>)

  function Shown(m: Message): seq<Packet> { if Hidden(m) then [] else [Packet(m.kind, m.body)] }

  function Visible(ms: seq<Message>): seq<Packet> {
    if ms == [] then [] else Shown(ms[0]) + Visible(ms[1..])
  }

  lemma NothingVisible()
    ensures Visible([]) == []
  {
  }

  lemma {:induction false} VisibleConcat(a: seq<Message>, b: seq<Message>)
    ensures Visible(a + b) == Visible(a) + Visible(b)
    decreases |a|
  {
    hide Shown;
    if a == [] {
      assert a + b == b;
    } else {
      VisibleConcat(a[1..], b);
      assert (a + b)[0] == a[0] && (a + b)[1..] == a[1..] + b;
      var x, y, z := Shown(a[0]), Visible(a[1..]), Visible(b);
      assert (x + y) + z == x + (y + z);
    }
  }

  // ---------- messages in flight ----------

  /** Messages that the peer's context c will read: proper, and not taken for an attack. */
  ghost predicate Deliverable(c: Context, ms: seq<Message>)
    decreases |ms|
  {
    ms == [] || (Proper(ms[0]) && Undetected(c, ms[0]) && Deliverable(Frame(c, ms[0]).after, ms[1..]))
  }

  /** Their frames, one behind the other. */
  ghost function Flight(c: Context, ms: seq<Message>): Output<Context>
    requires Deliverable(c, ms)
    decreases |ms|
  {
    if ms == [] then Output([], c) else
    var f := Frame(c, ms[0]);
    var rest := Flight(f.after, ms[1..]);
    Output(f.data + rest.data, rest.after)
  }

  lemma {:induction false} FlightAppend(c: Context, ms: seq<Message>, m: Message)
    requires Deliverable(c, ms) && Proper(m) && Undetected(Flight(c, ms).after, m)
    ensures Deliverable(c, ms + [m])
    ensures var f := Frame(Flight(c, ms).after, m);
            Flight(c, ms + [m]) == Output(Flight(c, ms).data + f.data, f.after)
    decreases |ms|
  {
    hide Frame, Undetected, Orderly, Sendable;
    if ms == [] {
      assert ([m])[1..] == [];
      assert [] + [m] == [m];
      var c' := Frame(c, m).after;
      assert Deliverable(c', []);
      assert Flight(c', []) == Output([], c');
    } else {
      var c' := Frame(c, ms[0]).after;
      FlightAppend(c', ms[1..], m);
      var all := ms + [m];
      assert all[0] == ms[0] && all[1..] == ms[1..] + [m];
      assert Deliverable(c, all);
      var f, rest := Frame(c, ms[0]).data, Flight(c', ms[1..]).data;
      var g := Frame(Flight(c, ms).after, m).data;
      assert f + (rest + g) == (f + rest) + g;
    }
  }

  lemma FlightEmpty(c: Context, ms: seq<Message>)
    requires Deliverable(c, ms) && Flight(c, ms).data == []
    ensures ms == []
  {
  }

  // ---------- polling ----------

  datatype Progress = Progress(taken: nat, found: Option<Message>)

  /** How many messages a poll takes when n octets of the flight have arrived, and which one it returns. */
  ghost function Polled(c: Context, ms: seq<Message>, n: nat): (p: Progress)
    requires Deliverable(c, ms)
    ensures p.taken <= |ms|
    decreases |ms|
  {
    if ms == [] then Progress(0, None) else
    var f := Frame(c, ms[0]);
    if n < |f.data| then Progress(0, None)
    else if !Hidden(ms[0]) then Progress(1, Some(ms[0]))
    else
      var p := Polled(f.after, ms[1..], n - |f.data|);
      Progress(1 + p.taken, p.found)
  }

  /** The state after a poll: what was returned, and what is still in flight. */
  ghost predicate PollResult(ms: seq<Message>, p: Progress, r: Poll, wire: seq<byte>) {
    && p.taken <= |ms|
    && Deliverable(r.after.context, ms[p.taken..])
    && r.after.input + wire == Flight(r.after.context, ms[p.taken..]).data
    && match p.found
       case None => r.outcome == NoPacket && r.after.incoming == [] && Visible(ms[..p.taken]) == []
       case Some(m) => r.outcome == Received(m.kind) && r.after.incoming == m.body
                       && Visible(ms[..p.taken]) == [Packet(m.kind, m.body)]
  }

  /** After a poll sender and receiver agree as before. */
  ghost predicate SameEnd(c: Context, ms: seq<Message>, p: Progress, after: Context)
  {
    && Deliverable(c, ms) && p.taken <= |ms| && Deliverable(after, ms[p.taken..])
    && Flight(after, ms[p.taken..]).after == Flight(c, ms).after
  }

  /** The bytes that arrived are a whole first frame and more, or part of the first frame. */
  lemma FirstFrame(f: seq<byte>, rest: seq<byte>, input: seq<byte>, wire: seq<byte>)
    requires input + wire == f + rest
    ensures |input| >= |f| ==> input == f + input[|f|..] && input[|f|..] + wire == rest
    ensures |input| < |f| ==> input <= f
  {
    var all := f + rest;
    if |input| >= |f| {
      assert input == all[..|input|] && wire == all[|input|..];
      assert f == input[..|f|];
      assert all[|f|..] == rest;
    } else {
      assert input == all[..|input|] == f[..|input|];
    }
  }

  /** A poll that finds nothing to take. */
  lemma PollNothing(c: Context, ms: seq<Message>, input: seq<byte>, wire: seq<byte>)
    requires Deliverable(c, ms) && input + wire == Flight(c, ms).data
    requires ms == [] || |input| < |Frame(c, ms[0]).data|
    ensures ReadPoll(Receiver(c, input, [])) == Poll(NoPacket, Receiver(c, input, []))
  {
    hide Frame, Undetected, Orderly, Sendable;
    var r := Receiver(c, input, []);
    if ms == [] {
      assert input == [];
      EmptyInput(c);
    } else {
      var f := Frame(c, ms[0]);
      FirstFrame(f.data, Flight(f.after, ms[1..]).data, input, wire);
      TakePart(c, ms[0], input);
    }
    hide TakePacket;
  }

  lemma EmptyInput(c: Context)
    ensures TakePacket(Receiver(c, [], [])) == Incomplete
  {
    hide Open, PaddingLength, GetInt;
  }

  /** A poll that takes a first frame and returns it. */
  lemma PollVisible(c: Context, m: Message, t: seq<byte>)
    requires Proper(m) && Undetected(c, m) && !Hidden(m)
    ensures ReadPoll(Receiver(c, Frame(c, m).data + t, [])) ==
            Poll(Received(m.kind), Receiver(Frame(c, m).after, t, m.body))
  {
    hide Frame, Undetected, Sendable, TakePacket;
    TakeFrame(c, m, t);
  }

  /** A poll that takes a first frame and goes on behind it. */
  lemma PollHidden(c: Context, m: Message, t: seq<byte>)
    requires Proper(m) && Undetected(c, m) && Hidden(m)
    ensures ReadPoll(Receiver(c, Frame(c, m).data + t, [])) == ReadPoll(Receiver(Frame(c, m).after, t, []))
  {
    hide Frame, Undetected, Sendable, TakePacket, Get;
    TakeFrame(c, m, t);
  }

  lemma FlightParts(c: Context, ms: seq<Message>)
    requires Deliverable(c, ms) && ms != []
    ensures var f := Frame(c, ms[0]);
            && Deliverable(f.after, ms[1..])
            && Flight(c, ms).data == f.data + Flight(f.after, ms[1..]).data
            && Flight(c, ms).after == Flight(f.after, ms[1..]).after
  {
    hide Frame, Undetected, Orderly, Sendable;
  }

  lemma NothingTaken(c: Context, ms: seq<Message>, input: seq<byte>, wire: seq<byte>)
    requires Deliverable(c, ms) && input + wire == Flight(c, ms).data
    ensures var p := Progress(0, None);
            PollResult(ms, p, Poll(NoPacket, Receiver(c, input, [])), wire) && SameEnd(c, ms, p, c)
  {
    assert ms[0..] == ms && ms[..0] == [];
    hide Deliverable, Flight;
  }

  lemma VisibleFront(ms: seq<Message>, k: nat)
    requires k < |ms|
    ensures Visible(ms[..1 + k]) == Shown(ms[0]) + Visible(ms[1..][..k]) && ms[1..][k..] == ms[1 + k..]
  {
    var front := ms[..1 + k];
    assert front[0] == ms[0] && front[1..] == ms[1..][..k];
  }

  lemma OneTaken(c: Context, ms: seq<Message>, t: seq<byte>, wire: seq<byte>)
    requires Deliverable(c, ms) && ms != [] && !Hidden(ms[0])
    requires t + wire == Flight(Frame(c, ms[0]).after, ms[1..]).data
    ensures var m := ms[0]; var p := Progress(1, Some(m)); var c' := Frame(c, m).after;
            PollResult(ms, p, Poll(Received(m.kind), Receiver(c', t, m.body)), wire) && SameEnd(c, ms, p, c')
  {
    hide Deliverable, Flight, Frame, Visible, Undetected, Orderly, Sendable;
    FlightParts(c, ms);
    VisibleFront(ms, 0);
    assert ms[1..][..0] == [];
    NothingVisible();
    assert Shown(ms[0]) + [] == Shown(ms[0]);
  }

  /** Results behind a hidden first message are results of the whole. */
  lemma HiddenTaken(c: Context, ms: seq<Message>, p: Progress, r: Poll, wire: seq<byte>)
    requires Deliverable(c, ms) && ms != [] && Hidden(ms[0])
    requires PollResult(ms[1..], p, r, wire) && SameEnd(Frame(c, ms[0]).after, ms[1..], p, r.after.context)
    ensures var q := Progress(1 + p.taken, p.found);
            PollResult(ms, q, r, wire) && SameEnd(c, ms, q, r.after.context)
  {
    hide Deliverable, Flight, Frame, Visible, Undetected, Orderly, Sendable;
    FlightParts(c, ms);
    VisibleFront(ms, p.taken);
    assert Shown(ms[0]) == [];
  }

  /** packet_read_poll on any prefix of what is in flight: never a disconnect, and no octet lost. */
  lemma {:induction false} ReadPollIs(c: Context, ms: seq<Message>, input: seq<byte>, wire: seq<byte>)
    requires Deliverable(c, ms) && input + wire == Flight(c, ms).data
    ensures var p := Polled(c, ms, |input|); var r := ReadPoll(Receiver(c, input, []));
            PollResult(ms, p, r, wire) && SameEnd(c, ms, p, r.after.context)
    decreases |ms|
  {
    hide Frame, Undetected, Orderly, Sendable, ReadPoll, PollResult, SameEnd, Flight;
    if ms == [] || |input| < |Frame(c, ms[0]).data| {
      PollNothing(c, ms, input, wire);
      NothingTaken(c, ms, input, wire);
    } else {
      var m, f := ms[0], Frame(c, ms[0]);
      FlightParts(c, ms);
      FirstFrame(f.data, Flight(f.after, ms[1..]).data, input, wire);
      var t := input[|f.data|..];
      if Hidden(m) {
        PollHidden(c, m, t);
        ReadPollIs(f.after, ms[1..], t, wire);
        HiddenTaken(c, ms, Polled(f.after, ms[1..], |t|), ReadPoll(Receiver(f.after, t, [])), wire);
      } else {
        PollVisible(c, m, t);
        OneTaken(c, ms, t, wire);
      }
    }
  }

  // ---------- the keys of both directions ----------

  datatype KeyPair = KeyPair(receive: Option<Context>, send: Option<Context>)

  /** packet_set_encryption_key: Arcfour uses one half of the key for each direction. */
  function EncryptionKeys(key: seq<byte>, cipher: int, isClient: bool, k: CipherContexts.CipherTables): KeyPair {
    if cipher == 5 then
      var half := |key| / 2;
      var first := CipherContexts.SetKey(cipher, key[..half], k);
      var second := CipherContexts.SetKey(cipher, key[half..half + half], k);
      if isClient then KeyPair(first, second) else KeyPair(second, first)
    else
      var both := CipherContexts.SetKey(cipher, key, k);
      KeyPair(both, both)
  }

  /** Each side sends with the context the other side receives with. */
  lemma KeysMeet(key: seq<byte>, cipher: int, k: CipherContexts.CipherTables)
    ensures EncryptionKeys(key, cipher, true, k).send == EncryptionKeys(key, cipher, false, k).receive
    ensures EncryptionKeys(key, cipher, false, k).send == EncryptionKeys(key, cipher, true, k).receive
  {
  }

  /** For Arcfour the client receives with the first half of the key and sends with the second; a last
      octet without a partner is not used.  Every other cipher has one key for both directions. */
  lemma KeyHalves(first: seq<byte>, second: seq<byte>, odd: seq<byte>, cipher: int, k: CipherContexts.CipherTables)
    requires |first| == |second| && |odd| <= 1
    ensures var key := first + second + odd;
            && EncryptionKeys(key, 5, true, k) ==
               KeyPair(CipherContexts.SetKey(5, first, k), CipherContexts.SetKey(5, second, k))
            && EncryptionKeys(key, 5, false, k) ==
               KeyPair(CipherContexts.SetKey(5, second, k), CipherContexts.SetKey(5, first, k))
            && (cipher != 5 ==>
                  EncryptionKeys(key, cipher, true, k) == EncryptionKeys(key, cipher, false, k) ==
                  KeyPair(CipherContexts.SetKey(cipher, key, k), CipherContexts.SetKey(cipher, key, k)))
  {
    hide CipherContexts.SetKey;
    var key, half := first + second + odd, |first + second + odd| / 2;
    assert half == |first| && key[..half] == first && key[half..half + half] == second;
  }

  // ---------- runs ----------

  /**
   One direction of a connection: the sender's context, the octets written and not yet delivered,
   the receiver, whether it stopped, and the logs of both ends.
   */
  datatype System = System(sender: Context, wire: seq<byte>, receiver: Receiver, stopped: bool,
                           sent: seq<Message>, got: seq<Packet>)

  datatype Action =
    | Send(m: Message)
    | Deliver(n: nat)
    | PollOnce
    | SetKeys(key: seq<byte>, cipher: int, k: CipherContexts.CipherTables, fromClient: bool)

  /** Sent messages are proper and not taken for an attack; both sides set a new key, by one of the
      known ciphers, when nothing is in flight. */
  ghost predicate Allowed(s: System, a: Action) {
    match a
    case Send(m) => Proper(m) && Undetected(s.sender, m)
    case Deliver(n) => n <= |s.wire|
    case PollOnce => true
    case SetKeys(key, cipher, k, fromClient) =>
      && s.wire == [] && s.receiver.input == []
      && EncryptionKeys(key, cipher, fromClient, k).send.Some?
      && EncryptionKeys(key, cipher, !fromClient, k).receive.Some?
  }

  /** A consumer empties each packet it gets before it polls again. */
  ghost function Next(s: System, a: Action): System
    requires Allowed(s, a)
  {
    match a
    case Send(m) =>
      var f := Frame(s.sender, m);
      s.(sender := f.after, wire := s.wire + f.data, sent := s.sent + [m])
    case Deliver(n) =>
      s.(wire := s.wire[n..], receiver := s.receiver.(input := s.receiver.input + s.wire[..n]))
    case PollOnce =>
      var r := ReadPoll(s.receiver);
      (match r.outcome
       case NoPacket => s.(receiver := r.after)
       case Received(kind) => s.(receiver := r.after.(incoming := []), got := s.got + [Packet(kind, r.after.incoming)])
       case Stopped(_) => s.(receiver := r.after, stopped := true))
    case SetKeys(key, cipher, k, fromClient) =>
      s.(sender := EncryptionKeys(key, cipher, fromClient, k).send.value,
         receiver := s.receiver.(context := EncryptionKeys(key, cipher, !fromClient, k).receive.value))
  }

  function Start(c: Context): System { System(c, [], Receiver(c, [], []), false, [], []) }

  ghost predicate IsRun(c: Context, states: seq<System>, actions: seq<Action>) {
    && |states| == |actions| + 1 && states[0] == Start(c)
    && forall i :: 0 <= i < |actions| ==> Allowed(states[i], actions[i]) && states[i + 1] == Next(states[i], actions[i])
  }

  /** pending are the messages sent and not yet taken. */
  ghost predicate InStep(s: System, pending: seq<Message>) {
    && !s.stopped && s.receiver.incoming == []
    && Deliverable(s.receiver.context, pending)
    && s.receiver.input + s.wire == Flight(s.receiver.context, pending).data
    && s.sender == Flight(s.receiver.context, pending).after
    && Visible(s.sent) == s.got + Visible(pending)
  }

  // ---------- what every step keeps ----------

  lemma SendKeeps(s: System, m: Message, pending: seq<Message>)
    requires InStep(s, pending) && Allowed(s, Send(m))
    ensures InStep(Next(s, Send(m)), pending + [m])
  {
    hide Deliverable, Flight, Frame, Visible, Undetected, Orderly, Sendable;
    var c := s.receiver.context;
    FlightAppend(c, pending, m);
    VisibleConcat(s.sent, [m]);
    VisibleConcat(pending, [m]);
    var f := Frame(s.sender, m).data;
    assert s.receiver.input + (s.wire + f) == (s.receiver.input + s.wire) + f;
    assert s.got + (Visible(pending) + Visible([m])) == (s.got + Visible(pending)) + Visible([m]);
  }

  lemma DeliverKeeps(s: System, n: nat, pending: seq<Message>)
    requires InStep(s, pending) && n <= |s.wire|
    ensures InStep(Next(s, Deliver(n)), pending)
  {
    hide Deliverable, Flight, Visible;
    assert (s.receiver.input + s.wire[..n]) + s.wire[n..] == s.receiver.input + s.wire;
  }

  lemma PollKeeps(s: System, pending: seq<Message>) returns (k: nat)
    requires InStep(s, pending)
    ensures k <= |pending| && InStep(Next(s, PollOnce), pending[k..])
    ensures ReadPoll(s.receiver).outcome == NoPacket ==>
            Polled(s.receiver.context, pending, |s.receiver.input|).found == None
    ensures k == Polled(s.receiver.context, pending, |s.receiver.input|).taken
  {
    hide Deliverable, Flight, Visible, ReadPoll, Polled;
    var c := s.receiver.context;
    var p := Polled(c, pending, |s.receiver.input|);
    k := p.taken;
    assert s.receiver == Receiver(c, s.receiver.input, []);
    ReadPollIs(c, pending, s.receiver.input, s.wire);
    VisibleConcat(pending[..k], pending[k..]);
    assert pending == pending[..k] + pending[k..];
    var shown := Visible(pending[..k]);
    assert s.got + (shown + Visible(pending[k..])) == (s.got + shown) + Visible(pending[k..]);
    assert s.got + [] == s.got;
  }

  lemma SetKeysKeeps(s: System, key: seq<byte>, cipher: int, k: CipherContexts.CipherTables, fromClient: bool,
                     pending: seq<Message>)
    requires InStep(s, pending) && Allowed(s, SetKeys(key, cipher, k, fromClient))
    ensures pending == [] && InStep(Next(s, SetKeys(key, cipher, k, fromClient)), [])
  {
    hide Frame, Undetected, Orderly, Sendable, EncryptionKeys;
    KeysMeet(key, cipher, k);
    FlightEmpty(s.receiver.context, pending);
  }

  ghost predicate AlwaysInStep(s: System) { exists pending :: InStep(s, pending) }

  lemma StepKeeps(s: System, a: Action)
    requires AlwaysInStep(s) && Allowed(s, a)
    ensures AlwaysInStep(Next(s, a))
  {
    hide InStep, Next;
    var pending :| InStep(s, pending);
    match a {
      case Send(m) => SendKeeps(s, m, pending);
      case Deliver(n) =>
        DeliverKeeps(s, n, pending);
      case PollOnce => var k := PollKeeps(s, pending);
      case SetKeys(key, cipher, k, fromClient) => SetKeysKeeps(s, key, cipher, k, fromClient, pending);
    }
  }

  lemma StartInStep(c: Context)
    ensures AlwaysInStep(Start(c))
  {
    hide Frame, Undetected, Proper;
    assert Deliverable(c, []);
    assert InStep(Start(c), []);
  }

  lemma {:induction false} RunInStep(c: Context, states: seq<System>, actions: seq<Action>, i: nat)
    requires IsRun(c, states, actions) && i < |states|
    ensures AlwaysInStep(states[i])
    decreases i
  {
    hide AlwaysInStep, Next, Allowed;
    if i == 0 {
      StartInStep(c);
    } else {
      RunInStep(c, states, actions, i - 1);
      StepKeeps(states[i - 1], actions[i - 1]);
    }
  }

  // ---------- the theorems ----------

  /** In no run does the reader disconnect: no bad length, checksum or string, no junk left over. */
  lemma NeverStopped(c: Context, states: seq<System>, actions: seq<Action>, i: nat)
    requires IsRun(c, states, actions) && i < |states|
    ensures !states[i].stopped
  {
    RunInStep(c, states, actions, i);
    hide IsRun;
  }

  /** What was read is at every moment a prefix of the visible packets that were sent. */
  lemma ReadIsPrefixOfSent(c: Context, states: seq<System>, actions: seq<Action>, i: nat)
    requires IsRun(c, states, actions) && i < |states|
    ensures states[i].got <= Visible(states[i].sent)
  {
    RunInStep(c, states, actions, i);
    hide IsRun, Visible, Deliverable, Flight;
  }

  /**
   When everything sent has been delivered and a poll finds no packet, every visible packet has
   been read, in order and unchanged, and both contexts are equal.
   */
  lemma AllIsRead(c: Context, states: seq<System>, actions: seq<Action>, i: nat)
    requires IsRun(c, states, actions) && i < |states|
    requires states[i].wire == [] && ReadPoll(states[i].receiver).outcome == NoPacket
    ensures states[i].got == Visible(states[i].sent)
    ensures Next(states[i], PollOnce).receiver.context == states[i].sender
  {
    RunInStep(c, states, actions, i);
    hide IsRun;
    var s := states[i];
    var pending :| InStep(s, pending);
    AllTaken(s, pending);
  }

  lemma AllTaken(s: System, pending: seq<Message>)
    requires InStep(s, pending) && s.wire == [] && ReadPoll(s.receiver).outcome == NoPacket
    ensures s.got == Visible(s.sent) && Next(s, PollOnce).receiver.context == s.sender
  {
    hide Deliverable, Flight, Visible, ReadPoll;
    var c := s.receiver.context;
    assert s.receiver.input == s.receiver.input + s.wire;
    EverythingPolled(c, pending);
    var k := PollKeeps(s, pending);
    hide Polled;
    assert pending[k..] == [];
    NothingVisible();
    assert s.got + [] == s.got;
    var s' := Next(s, PollOnce);
    assert s'.sent == s.sent && s'.got == s.got && s'.sender == s.sender;
    NothingInFlight(s'.receiver.context);
  }

  lemma NothingInFlight(c: Context)
    ensures Deliverable(c, []) && Flight(c, []) == Output([], c)
  {
  }

  /** With the whole flight at hand a poll that returns nothing has taken everything. */
  lemma {:induction false} EverythingPolled(c: Context, ms: seq<Message>)
    requires Deliverable(c, ms)
    ensures var p := Polled(c, ms, |Flight(c, ms).data|); p.found == None ==> p.taken == |ms|
    decreases |ms|
  {
    hide Frame, Undetected, Orderly, Sendable;
    if ms != [] {
      EverythingPolled(Frame(c, ms[0]).after, ms[1..]);
    }
  }

  // ---------- values in packets ----------

  /** Each packet's data are the encodings of the items in the list beside it. */
  predicate Carry(ps: seq<Packet>, lists: seq<seq<Item>>) {
    && |ps| == |lists|
    && forall j :: 0 <= j < |ps| ==> AllFit(lists[j]) && ps[j].body == PutAll(lists[j])
  }

  /**
   What was put into the packets, sent, cut and polled is what is got: whenever packets have been
   read, and all of them once everything was delivered and a poll finds nothing.
   */
  lemma ItemsArrive(c: Context, states: seq<System>, actions: seq<Action>, i: nat, lists: seq<seq<Item>>)
    requires IsRun(c, states, actions) && i < |states| && Carry(Visible(states[i].sent), lists)
    ensures |states[i].got| <= |lists|
    ensures forall j :: 0 <= j < |states[i].got| ==>
              GetAll(Kinds(lists[j]), states[i].got[j].body) == Some(GotAll(lists[j], []))
    ensures states[i].wire == [] && ReadPoll(states[i].receiver).outcome == NoPacket ==> |states[i].got| == |lists|
  {
    ReadIsPrefixOfSent(c, states, actions, i);
    if states[i].wire == [] && ReadPoll(states[i].receiver).outcome == NoPacket {
      AllIsRead(c, states, actions, i);
    }
    hide IsRun, Visible, ReadPoll, GetAll, PutAll;
    forall j | 0 <= j < |states[i].got|
      ensures GetAll(Kinds(lists[j]), states[i].got[j].body) == Some(GotAll(lists[j], []))
    {
      GetAllPutAll(lists[j], []);
      assert PutAll(lists[j]) + [] == PutAll(lists[j]);
    }
  }
}
