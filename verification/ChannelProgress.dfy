/**
 Progress: from every reachable state, a connection whose two inputs are closed can be brought to
 its end.  The continuation refuses open requests, takes no connection and reads nothing: it
 delivers what is in flight, lets both ends send the rest and their EOF, and writes what is left.
 */
module ChannelProgress {
  import opened Bytes
  import opened Channels
  import opened ChannelSafety
  import opened ChannelBytes
  import opened ChannelRuns
  import opened ChannelTheorems

  // ---------- continuations ----------

  /** What the packet layer of one end is set to: packet_is_interactive and packet_max_size. */
  datatype Setting = Setting(interactive: bool, maxPacket: nat)
  {
    /** Some data is sent at every turn. */
    predicate Moves() { interactive || maxPacket >= 2 }
  }

  datatype Settings = Settings(a: Setting, b: Setting)
  {
    predicate Moves() { a.Moves() && b.Moves() }
    function Mirror(): Settings { Settings(b, a) }
  }

  predicate Fits(act: Action, c: Setting) { act.Poll? ==> act.interactive == c.interactive }

  /** A step of either end under these settings. */
  ghost predicate Steps(c: Settings, s: System, t: System) {
    exists act: Action ::
      || (Fits(act, c.a) && Acts(s.a, s.b, s.pairs, act, c.a.maxPacket, t.a, t.b, t.pairs))
      || (Fits(act, c.b) && Acts(s.b, s.a, Swap(s.pairs), act, c.b.maxPacket, t.b, t.a, Swap(t.pairs)))
  }

  ghost predicate IsPath(c: Settings, p: seq<System>) {
    p != [] && forall k :: 0 <= k < |p| - 1 ==> Steps(c, p[k], p[k + 1])
  }

  ghost predicate Leads(c: Settings, p: seq<System>, s: System, t: System) {
    IsPath(c, p) && p[0] == s && p[|p| - 1] == t
  }

  /** Some continuation of s ends in t. */
  ghost predicate Reaches(c: Settings, s: System, t: System) { exists p: seq<System> :: Leads(c, p, s, t) }

  /** A continuation of a run makes a longer run. */
  lemma ContinuesRun(c: Settings, run: seq<System>, p: seq<System>, t: System)
    requires IsRun(run) && Leads(c, p, run[|run| - 1], t)
    ensures IsRun(run + p[1..]) && (run + p[1..])[|run + p[1..]| - 1] == t
  {
    var longer := run + p[1..];
    forall k | 0 <= k < |longer| - 1 ensures Next(longer[k], longer[k + 1]) {
      if k < |run| - 1 {
        assert longer[k] == run[k] && longer[k + 1] == run[k + 1];
      } else {
        var m := k - |run| + 1;
        assert longer[k] == p[m] && longer[k + 1] == p[m + 1];
        assert Steps(c, p[m], p[m + 1]);
      }
    }
  }

  lemma ReachesItself(c: Settings, s: System)
    ensures Reaches(c, s, s)
  {
    assert Leads(c, [s], s, s);
  }

  lemma ReachesNext(c: Settings, s: System, t: System)
    requires Steps(c, s, t)
    ensures Reaches(c, s, t)
  {
    assert Leads(c, [s, t], s, t);
  }

  lemma ReachesOn(c: Settings, s: System, t: System, u: System)
    requires Reaches(c, s, t) && Reaches(c, t, u)
    ensures Reaches(c, s, u)
  {
    var p :| Leads(c, p, s, t);
    var q :| Leads(c, q, t, u);
    hide Steps;
    var r := p + q[1..];
    forall k | 0 <= k < |r| - 1 ensures Steps(c, r[k], r[k + 1]) {
      if k < |p| - 1 {
        assert Steps(c, p[k], p[k + 1]);
      } else {
        assert r[k] == q[k - |p| + 1] && r[k + 1] == q[k - |p| + 2];
      }
    }
    assert Leads(c, r, s, u);
  }

  /** The other end first. */
  ghost function Mirror(s: System): System { System(s.b, s.a, Swap(s.pairs)) }

  lemma MirrorTwice(s: System)
    ensures Mirror(Mirror(s)) == s
  {
    SwapTwice(s.pairs);
  }

  lemma MirrorGood(s: System)
    requires SystemGood(s)
    ensures SystemGood(Mirror(s))
  {
    AllGoodSwap(s.a, s.b, s.pairs);
  }

  lemma MirrorSteps(c: Settings, s: System, t: System)
    requires Steps(c, s, t)
    ensures Steps(c.Mirror(), Mirror(s), Mirror(t))
  {
    SwapTwice(s.pairs);
    SwapTwice(t.pairs);
    hide Acts, Swap;
  }

  lemma MirrorReaches(c: Settings, s: System, t: System)
    requires Reaches(c, s, t)
    ensures Reaches(c.Mirror(), Mirror(s), Mirror(t))
  {
    var p :| Leads(c, p, s, t);
    var q := seq(|p|, k requires 0 <= k < |p| => Mirror(p[k]));
    forall k | 0 <= k < |q| - 1 ensures Steps(c.Mirror(), q[k], q[k + 1]) {
      MirrorSteps(c, p[k], p[k + 1]);
    }
    hide Steps, Mirror;
    assert Leads(c.Mirror(), q, Mirror(s), Mirror(t));
  }

  /** A step of end a. */
  lemma Act(c: Settings, s: System, act: Action, a': Table, b': Table, pairs': Pairs) returns (t: System)
    requires SystemGood(s) && Fits(act, c.a) && Acts(s.a, s.b, s.pairs, act, c.a.maxPacket, a', b', pairs')
    ensures t == System(a', b', pairs') && SystemGood(t) && Reaches(c, s, t)
  {
    t := System(a', b', pairs');
    ActsKeeps(s.a, s.b, s.pairs, act, c.a.maxPacket, a', b', pairs');
    hide Acts;
    assert Steps(c, s, t);
    ReachesNext(c, s, t);
  }

  // ---------- what the continuation does to a slot ----------

  predicate Grows(x: Status, y: Status) {
    && (x.inputClosed ==> y.inputClosed) && (x.outputClosed ==> y.outputClosed)
    && (x.eofSent ==> y.eofSent) && (x.eofReceived ==> y.eofReceived)
    && (x.closeSent ==> y.closeSent) && (x.closeReceived ==> y.closeReceived)
  }

  /** A free slot stays free; an open channel keeps its partner, its socket, its flags and an empty
      input, or is freed.  Its output is closed only when everything received was written: the socket is
      `drained`. */
  predicate Later(x: Channel, y: Channel, drained: bool) {
    && (x.kind in {Free, Listener} ==> y.kind == x.kind)
    && (x.kind == Opening && y.kind != Free ==> y.kind in {Opening, Open} && y.sock == x.sock)
    && (x.kind == Open && y.kind != Free ==>
          && y.kind == Open && y.remoteId == x.remoteId && y.sock == x.sock && Grows(x.status, y.status)
          && (x.input == [] ==> y.input == []))
    && (x.kind == Open && !x.status.outputClosed && !drained ==> y.kind == Open && !y.status.outputClosed)
  }

  ghost predicate TableLater(t: Table, t': Table) {
    && (forall j :: Later(At(t, j), At(t', j), DrainedOf(t', At(t, j).sock)))
    && (forall s :: ReadOf(t', s) == ReadOf(t, s) && (DrainedOf(t, s) ==> DrainedOf(t', s)))
  }

  ghost predicate SystemLater(s: System, t: System) {
    TableLater(s.a, t.a) && TableLater(s.b, t.b) && t.pairs == s.pairs
  }

  lemma LaterOn(t: Table, t': Table, t'': Table)
    requires TableLater(t, t') && TableLater(t', t'')
    ensures TableLater(t, t'')
  {
    hide At, ReadOf, DrainedOf;
    forall j ensures Later(At(t, j), At(t'', j), DrainedOf(t'', At(t, j).sock)) {
      assert Later(At(t, j), At(t', j), DrainedOf(t', At(t, j).sock));
      assert Later(At(t', j), At(t'', j), DrainedOf(t'', At(t', j).sock));
    }
  }

  lemma SystemLaterOn(s: System, t: System, u: System)
    requires SystemLater(s, t) && SystemLater(t, u)
    ensures SystemLater(s, u)
  {
    LaterOn(s.a, t.a, u.a);
    LaterOn(s.b, t.b, u.b);
  }

  /** Only slot i is different, and the sockets are the same. */
  lemma LaterAt(t: Table, t': Table, i: int)
    requires forall j :: j != i ==> At(t', j) == At(t, j)
    requires Later(At(t, i), At(t', i), false) && t'.sockets == t.sockets
    ensures TableLater(t, t')
  {
    hide At;
  }

  lemma SameLater(t: Table, t': Table)
    requires t'.channels == t.channels && t'.sockets == t.sockets
    ensures TableLater(t, t')
  {
    SameSlots(t, t');
    hide At;
  }

  lemma SameSystemLater(s: System)
    ensures SystemLater(s, s)
  {
    SameLater(s.a, s.a);
    SameLater(s.b, s.b);
  }

  lemma MirrorLater(s: System, t: System)
    requires SystemLater(s, t)
    ensures SystemLater(Mirror(s), Mirror(t))
  {
    hide TableLater;
  }

  /** What the other end can do. */
  lemma MirrorBack(c: Settings, s: System, u: System)
    requires SystemGood(s) && SystemGood(u) && Reaches(c.Mirror(), Mirror(s), u) && SystemLater(Mirror(s), u)
    ensures SystemGood(Mirror(u)) && Reaches(c, s, Mirror(u)) && SystemLater(s, Mirror(u))
  {
    MirrorGood(u);
    MirrorReaches(c.Mirror(), Mirror(s), u);
    MirrorLater(Mirror(s), u);
    MirrorTwice(s);
    hide Reaches, SystemLater, AllGood;
  }

  // ---------- delivery ----------

  function Weight(wire: seq<Message>): nat {
    if wire == [] then 0 else (if wire[0].PortOpen? then 2 else 1) + Weight(wire[1..])
  }

  lemma {:induction false} WeightSend(wire: seq<Message>, m: Message)
    ensures Weight(wire + [m]) == Weight(wire) + if m.PortOpen? then 2 else 1
  {
    if wire == [] {
      assert wire + [m] == [m] && [m][1..] == [];
    } else {
      WeightSend(wire[1..], m);
      assert (wire + [m])[0] == wire[0] && (wire + [m])[1..] == wire[1..] + [m];
    }
  }

  /** What a delivery to `me` does, a request being refused. */
  lemma ReceiveLater(me: Table, peer: Table)
    requires SlotsOk(me, peer) && peer.wire != [] && Receive(me, peer.wire[0], false, false).Done?
    ensures var me' := Receive(me, peer.wire[0], false, false).table;
            && TableLater(me, me')
            && Weight(me'.wire) <= Weight(me.wire) + (if peer.wire[0].PortOpen? then 1 else 0)
  {
    var m := peer.wire[0];
    var me' := Receive(me, m, false, false).table;
    if m.PortOpen? {
      WeightSend(me.wire, OpenFailure(m.sender));
      SameLater(me, me');
    } else {
      if m.Data? || m.InputEof? || m.OutputClosed? { HeadMatches(me, peer); }
      LaterAt(me, me', m.id);
    }
    hide TableLater;
  }

  lemma DeliverOne(c: Settings, s: System) returns (t: System)
    requires SystemGood(s) && s.b.wire != []
    ensures SystemGood(t) && Reaches(c, s, t) && SystemLater(s, t)
    ensures Weight(t.a.wire) + Weight(t.b.wire) < Weight(s.a.wire) + Weight(s.b.wire)
  {
    ReceiveKeeps(s.a, s.b, s.pairs, false, false);
    ReceiveLater(s.a, s.b);
    var a', b' := Receive(s.a, s.b.wire[0], false, false).table, s.b.(wire := s.b.wire[1..]);
    SameLater(s.b, b');
    hide AllGood, Receive, TableLater, Reaches;
    t := Act(c, s, Deliver(false, false), a', b', PairsAfter(s.a, s.b, s.pairs, s.b.wire[0], false));
  }

  /** Everything in flight is delivered. */
  lemma {:induction false} Drain(c: Settings, s: System) returns (t: System)
    requires SystemGood(s)
    ensures SystemGood(t) && Reaches(c, s, t) && SystemLater(s, t)
    ensures t.a.wire == [] && t.b.wire == []
    decreases Weight(s.a.wire) + Weight(s.b.wire)
  {
    hide AllGood, Reaches, SystemLater;
    if s.a.wire == [] && s.b.wire == [] {
      t := s;
      ReachesItself(c, s);
      SameSystemLater(s);
    } else {
      var u;
      if s.b.wire != [] {
        u := DeliverOne(c, s);
      } else {
        MirrorGood(s);
        var v := DeliverOne(c.Mirror(), Mirror(s));
        MirrorBack(c, s, v);
        u := Mirror(v);
      }
      t := Drain(c, u);
      ReachesOn(c, s, u, t);
      SystemLaterOn(s, u, t);
    }
  }

  // ---------- sending what was read ----------

  function Settle(ch: Channel): Channel { if ch.status.Terminates() then FREE_CHANNEL else ch }

  /** What one turn of channel_output_poll makes of a channel. */
  function Polled(c: Setting, ch: Channel): Channel {
    if ch.kind != Open then ch
    else if ch.input != [] then
      var len := if c.interactive then Min(|ch.input|, 512) else Min(Min(|ch.input|, 8192), c.maxPacket / 2);
      ch.(input := ch.input[len..])
    else if ch.status.inputClosed && !ch.status.eofSent then Settle(ch.(status := ch.status.(eofSent := true)))
    else ch
  }

  lemma PolledLater(c: Setting, t: Table, t': Table)
    requires t'.sockets == t.sockets && forall j :: At(t', j) == Polled(c, At(t, j))
    ensures TableLater(t, t')
  {
    hide At;
  }

  lemma PollSlotAt(c: Setting, t: Table, i: int)
    requires 0 <= i < |t.channels|
    ensures var t' := PollSlot(t, i, c.interactive, c.maxPacket);
            && t'.sockets == t.sockets && |t'.channels| == |t.channels|
            && forall j :: At(t', j) == if j == i then Polled(c, At(t, i)) else At(t, j)
  {
  }

  lemma {:induction false} PollPassAt(c: Setting, t: Table, k: nat, n: nat)
    requires WellFormed(t) && k <= n <= |t.channels|
    ensures var t' := PollPass(t, k, n, c.interactive, c.maxPacket);
            && t'.sockets == t.sockets && |t'.channels| == |t.channels|
            && forall j :: At(t', j) == if k <= j < n then Polled(c, At(t, j)) else At(t, j)
    decreases n - k
  {
    if k < n {
      PollSlotWellFormed(t, k, c.interactive, c.maxPacket);
      PollSlotAt(c, t, k);
      PollPassAt(c, PollSlot(t, k, c.interactive, c.maxPacket), k + 1, n);
    }
    hide At, Polled, PollSlot, WellFormed;
  }

  /** One poll of end a. */
  lemma PollAll(c: Settings, s: System) returns (t: System)
    requires SystemGood(s)
    ensures SystemGood(t) && Reaches(c, s, t) && SystemLater(s, t)
    ensures t.b == s.b && forall j :: At(t.a, j) == Polled(c.a, At(s.a, j))
  {
    var n := |s.a.channels|;
    var a' := PollPass(s.a, 0, n, c.a.interactive, c.a.maxPacket);
    PollPassAt(c.a, s.a, 0, n);
    forall j ensures At(a', j) == Polled(c.a, At(s.a, j)) {
    }
    PolledLater(c.a, s.a, a');
    SameLater(s.b, s.b);
    hide At, AllGood, Reaches, PollPass, Polled, TableLater;
    t := Act(c, s, Poll(n, c.a.interactive), a', s.b, s.pairs);
  }

  /** Once its input is closed, slot i of end a sends the rest and its EOF. */
  lemma {:induction false} SendRest(c: Settings, s: System, i: int) returns (t: System)
    requires SystemGood(s) && c.a.Moves() && (At(s.a, i).kind == Open ==> At(s.a, i).status.inputClosed)
    ensures SystemGood(t) && Reaches(c, s, t) && SystemLater(s, t)
    ensures At(t.a, i).kind == Open ==> At(t.a, i).status.eofSent
    decreases |At(s.a, i).input|
  {
    hide At, AllGood, Reaches;
    ReachesItself(c, s);
    SameSystemLater(s);
    t := s;
    if At(s.a, i).kind == Open && !At(s.a, i).status.eofSent {
      t := PollAll(c, s);
      if At(s.a, i).input != [] {
        var u := SendRest(c, t, i);
        ReachesOn(c, s, t, u);
        SystemLaterOn(s, t, u);
        t := u;
      }
    }
  }

  // ---------- writing what was received ----------

  /** What one turn of channel_prepare_select makes of a channel. */
  function Prepared(ch: Channel): Channel {
    if ch.kind == Open && !ch.status.outputClosed && ch.output == [] && ch.status.eofReceived
    then Settle(ch.(status := ch.status.(outputClosed := true, closeSent := true)))
    else ch
  }

  predicate WantsWrite(ch: Channel) { ch.kind == Open && !ch.status.outputClosed && ch.output != [] }

  lemma PrepareSlotAt(c: Setting, t: Table, i: int, w: Watch)
    requires WellFormed(t) && 0 <= i < |t.channels|
    requires At(t, i).kind == Open ==> Consistent(At(t, i))
    ensures var (t', w') := PrepareSlot(t, i, w, c.maxPacket);
            && |t'.channels| == |t.channels| && TableLater(t, t')
            && (forall j :: At(t', j) == if j == i then Prepared(At(t, i)) else At(t, j))
            && w.writeset <= w'.writeset && (WantsWrite(At(t, i)) ==> At(t, i).sock in w'.writeset)
  {
    var t' := PrepareSlot(t, i, w, c.maxPacket).0;
    if t' == t {
      SameLater(t, t);
    } else {
      DrainedAt(t, i);
    }
    hide At, TableLater, WellFormed, CloseOutput;
  }

  /** The output buffer is empty behind the EOF: the socket is marked and the output closed. */
  lemma DrainedAt(t: Table, i: int)
    requires WellFormed(t) && At(t, i).kind == Open && Consistent(At(t, i)) && Prepared(At(t, i)) != At(t, i)
    ensures var s := t.channels[i].sock;
            var t' := CloseOutput(t.(sockets := t.sockets[s := t.sockets[s].(drained := true)]), i);
            && |t'.channels| == |t.channels| && TableLater(t, t')
            && forall j :: At(t', j) == if j == i then Prepared(At(t, i)) else At(t, j)
  {
    var s := t.channels[i].sock;
    var t' := CloseOutput(t.(sockets := t.sockets[s := t.sockets[s].(drained := true)]), i);
    forall j ensures At(t', j) == if j == i then Prepared(At(t, i)) else At(t, j) {
    }
    hide At, WellFormed, Later;
    assert Later(At(t, i), Prepared(At(t, i)), true);
  }

  lemma {:induction false} PreparePassAt(c: Setting, t: Table, k: nat, w: Watch)
    requires WellFormed(t) && k <= |t.channels|
    requires forall j :: j >= k && At(t, j).kind == Open ==> Consistent(At(t, j))
    ensures var (t', w') := PreparePass(t, k, w, c.maxPacket);
            && |t'.channels| == |t.channels| && TableLater(t, t')
            && (forall j :: At(t', j) == if j >= k then Prepared(At(t, j)) else At(t, j))
            && w.writeset <= w'.writeset
            && (forall j :: j >= k && WantsWrite(At(t, j)) ==> At(t, j).sock in w'.writeset)
    decreases |t.channels| - k
  {
    if k == |t.channels| {
      SameLater(t, t);
    } else {
      PrepareSlotWellFormed(t, k, w, c.maxPacket);
      PrepareSlotAt(c, t, k, w);
      var (t1, w1) := PrepareSlot(t, k, w, c.maxPacket);
      hide At, PrepareSlot, WellFormed, TableLater, Prepared, Consistent;
      PreparePassAt(c, t1, k + 1, w1);
      LaterOn(t, t1, PreparePass(t1, k + 1, w1, c.maxPacket).0);
    }
  }

  /** A socket that takes `room` bytes. */
  function Writable(room: nat): Event { NO_EVENT.(writable := true, room := room) }

  lemma IdleSlot(c: Setting, t: Table, k: nat, w: Watch)
    requires WellFormed(t) && k < |t.channels|
    ensures Slot(t) < |Grow(t).channels| && AfterSlot(t, k, w, NO_EVENT, c.maxPacket) == t
  {
    AllocateFindsSlot(t);
  }

  lemma {:induction false} AfterPassIdle(c: Setting, t: Table, k: nat, n: nat, w: Watch, events: seq<Event>)
    requires WellFormed(t) && k <= n <= |t.channels|
    requires forall x :: k <= x < |events| ==> events[x] == NO_EVENT
    ensures AfterPass(t, k, n, w, events, c.maxPacket) == t
    decreases n - k
  {
    if k < n {
      IdleSlot(c, t, k, w);
      hide AfterSlot, Slot, Grow, NumUsed;
      AfterPassIdle(c, t, k + 1, n, w, events);
    }
  }

  /** Only the socket of slot i is ready. */
  lemma {:induction false} AfterPassOnly(c: Setting, t: Table, k: nat, n: nat, w: Watch, events: seq<Event>, i: nat)
    requires WellFormed(t) && k <= i < n <= |t.channels| && i < |events|
    requires forall x :: k <= x < |events| && x != i ==> events[x] == NO_EVENT
    ensures Slot(t) < |Grow(t).channels|
    ensures AfterPass(t, k, n, w, events, c.maxPacket) == AfterSlot(t, i, w, events[i], c.maxPacket)
    decreases i - k
  {
    hide AfterSlot, Slot, Grow, NumUsed;
    IdleSlot(c, t, k, w);
    if k < i {
      AfterPassOnly(c, t, k + 1, n, w, events, i);
    } else {
      AfterSlotWellFormed(t, i, w, events[i], c.maxPacket);
      AfterPassIdle(c, AfterSlot(t, i, w, events[i], c.maxPacket), k + 1, n, w, events);
    }
  }

  lemma WrittenAt(t: Table, i: int, room: nat)
    requires WellFormed(t) && At(t, i).kind == Open && 0 < |At(t, i).output| <= room
    ensures var t' := WriteSome(t, i, room);
            && TableLater(t, t')
            && forall j :: At(t', j) == if j == i then At(t, i).(output := []) else At(t, j)
  {
    var t' := WriteSome(t, i, room);
    forall j ensures At(t', j) == if j == i then At(t, i).(output := []) else At(t, j) {
    }
    hide At, WellFormed;
  }

  /** A socket that is ready takes the whole output. */
  lemma WriteAt(c: Setting, t: Table, i: int, w: Watch, room: nat)
    requires WellFormed(t) && 0 <= i < |t.channels| && |At(t, i).output| <= room
    ensures Slot(t) < |Grow(t).channels|
    ensures var t' := AfterSlot(t, i, w, Writable(room), c.maxPacket);
            && TableLater(t, t')
            && At(t', i) == if At(t, i).kind == Open && At(t, i).output != [] && At(t, i).sock in w.writeset
                            then At(t, i).(output := []) else At(t, i)
  {
    AllocateFindsSlot(t);
    var t' := AfterSlot(t, i, w, Writable(room), c.maxPacket);
    var ch := At(t, i);
    if ch.output != [] && ch.sock in w.writeset && ch.kind == Open {
      assert t' == WriteSome(t, i, room);
      WrittenAt(t, i, room);
    } else {
      assert t' == t;
      SameLater(t, t);
    }
  }

  /** What select() answers when only the socket of slot i is ready. */
  function ReadyAt(i: nat, room: nat): seq<Event> { seq(i, _ => NO_EVENT) + [Writable(room)] }

  lemma SelectPassAt(c: Setting, t: Table, i: int)
    requires WellFormed(t) && At(t, i).kind == Open
    requires forall j :: At(t, j).kind == Open ==> Consistent(At(t, j))
    ensures var x, t' := At(t, i), SelectPass(t, ReadyAt(i, |At(t, i).output|), c.maxPacket);
            && TableLater(t, t')
            && At(t', i) == if WantsWrite(x) then x.(output := []) else Prepared(x)
  {
    var x, room, events := At(t, i), |At(t, i).output|, ReadyAt(i, |At(t, i).output|);
    PreparePassAt(c, t, 0, Watch({}, {}));
    var (t1, w) := PreparePass(t, 0, Watch({}, {}), c.maxPacket);
    assert At(t1, i) == Prepared(x);
    hide At, TableLater, Consistent;
    AfterPassOnly(c, t1, 0, |t1.channels|, w, events, i);
    WriteAt(c, t1, i, w, room);
    LaterOn(t, t1, AfterSlot(t1, i, w, Writable(room), c.maxPacket));
  }

  /** One trip through select(), in which only the socket of slot i is ready, to take anything. */
  lemma SelectAt(c: Settings, s: System, i: int) returns (t: System)
    requires SystemGood(s) && At(s.a, i).kind == Open
    ensures SystemGood(t) && Reaches(c, s, t) && SystemLater(s, t) && t.b == s.b
    ensures var x := At(s.a, i);
            At(t.a, i) == if WantsWrite(x) then x.(output := []) else Prepared(x)
  {
    GoodHere(s.a, s.b, s.pairs, i);
    AllConsistent(s.a, s.b, s.pairs);
    SelectPassAt(c.a, s.a, i);
    SameLater(s.b, s.b);
    hide At, AllGood, Reaches, SelectPass, TableLater;
    var events := ReadyAt(i, |At(s.a, i).output|);
    t := Act(c, s, Select(events), SelectPass(s.a, events, c.a.maxPacket), s.b, s.pairs);
  }

  lemma AllConsistent(me: Table, peer: Table, pairs: Pairs)
    requires Good(me, peer, pairs)
    ensures forall j :: At(me, j).kind == Open ==> Consistent(At(me, j))
  {
    forall j | At(me, j).kind == Open ensures Consistent(At(me, j)) {
      GoodHere(me, peer, pairs, j);
    }
  }

  /** Once EOF was received, slot i of end a writes what is left and closes its output. */
  lemma WriteRest(c: Settings, s: System, i: int) returns (t: System)
    requires SystemGood(s) && (At(s.a, i).kind == Open ==> At(s.a, i).status.eofReceived)
    ensures SystemGood(t) && Reaches(c, s, t) && SystemLater(s, t)
    ensures At(t.a, i).kind == Open ==> At(t.a, i).status.outputClosed
  {
    ReachesItself(c, s);
    SameSystemLater(s);
    hide At, AllGood, Reaches, SystemLater;
    t := s;
    if At(s.a, i).kind == Open && !At(s.a, i).status.outputClosed {
      t := SelectAt(c, s, i);
      if At(s.a, i).output != [] {
        var u := SelectAt(c, t, i);
        ReachesOn(c, s, t, u);
        SystemLaterOn(s, t, u);
        t := u;
      }
    }
  }

  // ---------- the end of a connection ----------

  lemma SwapSame(pairs: Pairs, s: int, t: int)
    ensures (s, t) in pairs <==> (t, s) in Swap(pairs)
  {
    SwapIn(pairs);
  }

  /** Two channels that are connected later were connected before. */
  lemma LinkIsOld(s: System, t: System, i: int)
    requires SystemGood(s) && SystemGood(t) && SystemLater(s, t)
    requires At(s.a, i).kind == Open && At(t.a, i).kind == Open
    requires var j := At(t.a, i).remoteId; At(t.b, j).kind == Open && At(t.b, j).remoteId == i
    ensures LinkedAt(s.a, s.b, i)
  {
    var x := At(s.a, i);
    var j := x.remoteId;
    var y := At(s.b, j);
    assert Later(x, At(t.a, i), DrainedOf(t.a, x.sock));
    assert Later(y, At(t.b, j), DrainedOf(t.b, y.sock));
    if y.kind == Opening {
      assert LinkOk(t.a, t.b, t.pairs, i);
      assert (x.sock, y.sock) in s.pairs;
      SwapSame(s.pairs, x.sock, y.sock);
      assert OpeningFresh(s.b, s.a, Swap(s.pairs), j);
      var q := Pending(s.a.wire, j);
      assert q != [] && q[0].OpenConfirmation?;
      var r := q[0].sender;
      assert LinkOk(s.b, s.a, Swap(s.pairs), j);
      assert (y.sock, At(s.a, r).sock) in Swap(s.pairs);
      SwapSame(s.pairs, At(s.a, r).sock, y.sock);
      assert SlotOk(s.b, s.a, j);
      DistinctSockets(s.a, i);
      assert r == i;
    }
  }

  /** A channel whose other end is gone is freed by delivering what is in flight. */
  lemma LoneChannelEnds(c: Settings, run: seq<System>, k: nat, i: int)
    requires IsRun(run) && k < |run|
    requires At(run[k].a, i).kind == Open && !LinkedAt(run[k].a, run[k].b, i)
    ensures exists t: System :: Reaches(c, run[k], t) && At(t.a, i).kind == Free
  {
    var s := run[k];
    RunGood(run, k);
    var t := Drain(c, s);
    assert Later(At(s.a, i), At(t.a, i), DrainedOf(t.a, At(s.a, i).sock));
    if At(t.a, i).kind == Open {
      QuietMatch(t.a, t.b, t.pairs, i);
      LinkIsOld(s, t, i);
    }
  }

  /** Both ends of the connection are gone, and an output that was open has got everything. */
  ghost predicate Ended(s: System, t: System, i: int, j: int) {
    var x, y := At(s.a, i), At(s.b, j);
    && At(t.a, i).kind == Free && At(t.b, j).kind == Free
    && (!x.status.outputClosed ==> WrittenOf(t.a, x.sock) == ReadOf(s.b, y.sock))
    && (!y.status.outputClosed ==> WrittenOf(t.b, y.sock) == ReadOf(s.a, x.sock))
  }

  /** The slots of a connection, at both ends; nothing was read. */
  lemma EndsLater(s: System, t: System, i: int, j: int)
    requires SystemLater(s, t)
    ensures Later(At(s.a, i), At(t.a, i), DrainedOf(t.a, At(s.a, i).sock))
    ensures Later(At(s.b, j), At(t.b, j), DrainedOf(t.b, At(s.b, j).sock))
    ensures forall r :: ReadOf(t.a, r) == ReadOf(s.a, r)
  {
  }

  lemma BothMatch(t: System, i: int, j: int)
    requires SystemGood(t) && t.a.wire == [] && t.b.wire == []
    requires At(t.a, i).kind == Open ==> At(t.a, i).remoteId == j
    requires At(t.b, j).kind == Open ==> At(t.b, j).remoteId == i
    ensures At(t.a, i).kind == Open <==> At(t.b, j).kind == Open
    ensures At(t.a, i).kind == Open ==>
              var x, y := At(t.a, i).status, At(t.b, j).status;
              && x.eofReceived == y.eofSent && y.eofReceived == x.eofSent
              && !(x.eofSent && x.closeSent && y.eofSent && y.closeSent)
  {
    QuietMatch(t.a, t.b, t.pairs, i);
    AllGoodSwap(t.a, t.b, t.pairs);
    QuietMatch(t.b, t.a, Swap(t.pairs), j);
  }

  /** Both ends have sent their EOF and received the other's. */
  lemma ExchangeEof(c: Settings, s: System, i: int, j: int) returns (t: System)
    requires SystemGood(s) && c.Moves() && At(s.a, i).kind == Open && At(s.b, j).kind == Open
    requires At(s.a, i).remoteId == j && At(s.b, j).remoteId == i
    requires At(s.a, i).status.inputClosed && At(s.b, j).status.inputClosed
    ensures SystemGood(t) && Reaches(c, s, t) && SystemLater(s, t)
    ensures At(t.a, i).kind in {Open, Free} && At(t.b, j).kind in {Open, Free}
    ensures At(t.a, i).kind == Open ==> At(t.a, i).status.eofSent && At(t.a, i).status.eofReceived
    ensures At(t.b, j).kind == Open ==> At(t.b, j).status.eofSent && At(t.b, j).status.eofReceived
  {
    hide At, AllGood, Reaches, SystemLater;
    var u := SendRest(c, s, i);
    EndsLater(s, u, i, j);
    MirrorGood(u);
    var v' := SendRest(c.Mirror(), Mirror(u), j);
    MirrorBack(c, u, v');
    var v := Mirror(v');
    t := Drain(c, v);
    ReachesOn(c, s, u, v);
    ReachesOn(c, s, v, t);
    EndsLater(u, v, i, j);
    EndsLater(v, t, i, j);
    SystemLaterOn(s, u, v);
    SystemLaterOn(s, v, t);
    BothMatch(t, i, j);
  }

  /** Both ends have written everything and closed their outputs; then the slots are freed. */
  lemma CloseBoth(c: Settings, s: System, i: int, j: int) returns (t: System)
    requires SystemGood(s) && At(s.a, i).kind in {Open, Free} && At(s.b, j).kind in {Open, Free}
    requires At(s.a, i).kind == Open ==>
               At(s.a, i).remoteId == j && At(s.a, i).status.eofSent && At(s.a, i).status.eofReceived
    requires At(s.b, j).kind == Open ==>
               At(s.b, j).remoteId == i && At(s.b, j).status.eofSent && At(s.b, j).status.eofReceived
    ensures SystemGood(t) && Reaches(c, s, t) && SystemLater(s, t)
    ensures At(t.a, i).kind == Free && At(t.b, j).kind == Free
  {
    hide At, AllGood, Reaches, SystemLater;
    var u := WriteRest(c, s, i);
    EndsLater(s, u, i, j);
    MirrorGood(u);
    var v' := WriteRest(c.Mirror(), Mirror(u), j);
    MirrorBack(c, u, v');
    var v := Mirror(v');
    t := Drain(c, v);
    ReachesOn(c, s, u, v);
    ReachesOn(c, s, v, t);
    EndsLater(u, v, i, j);
    EndsLater(v, t, i, j);
    SystemLaterOn(s, u, v);
    SystemLaterOn(s, v, t);
    BothMatch(t, i, j);
    BothConsistent(t);
  }

  lemma BothConsistent(t: System)
    requires SystemGood(t)
    ensures forall j :: At(t.a, j).kind == Open ==> Consistent(At(t.a, j))
    ensures forall j :: At(t.b, j).kind == Open ==> Consistent(At(t.b, j))
  {
    AllConsistent(t.a, t.b, t.pairs);
    AllGoodSwap(t.a, t.b, t.pairs);
    AllConsistent(t.b, t.a, Swap(t.pairs));
  }

  /** A drained socket of a connection has got everything that was read at the other end. */
  lemma DrainedGotAll(t: System, s: int, r: int)
    requires SystemGood(t) && (s, r) in t.pairs
    ensures DrainedOf(t.a, s) ==> WrittenOf(t.a, s) == ReadOf(t.b, r)
    ensures DrainedOf(t.b, r) ==> WrittenOf(t.b, r) == ReadOf(t.a, s)
  {
    SwapSame(t.pairs, s, r);
    assert PairOk(t.a, t.b, s, r);
    assert PairOk(t.b, t.a, r, s);
  }

  /** From every state of a run in which a connection has both inputs closed, some continuation
      writes everything that was read at either end and frees both slots. */
  lemma ConnectionEnds(c: Settings, run: seq<System>, k: nat, i: int, j: int)
    requires IsRun(run) && k < |run| && c.Moves()
    requires At(run[k].a, i).kind == Open && At(run[k].b, j).kind == Open
    requires At(run[k].a, i).remoteId == j && At(run[k].b, j).remoteId == i
    requires At(run[k].a, i).status.inputClosed && At(run[k].b, j).status.inputClosed
    ensures exists t: System :: Reaches(c, run[k], t) && Ended(run[k], t, i, j)
  {
    var s := run[k];
    RunGood(run, k);
    var x, y := At(s.a, i), At(s.b, j);
    assert (x.sock, y.sock) in s.pairs by {
      assert LinkOk(s.a, s.b, s.pairs, i);
    }
    var u := ExchangeEof(c, s, i, j);
    EndsLater(s, u, i, j);
    hide At, AllGood, Reaches, IsRun, ReadOf, WrittenOf;
    var t := CloseBoth(c, u, i, j);
    ReachesOn(c, s, u, t);
    SystemLaterOn(s, u, t);
    EndsLater(s, t, i, j);
    DrainedGotAll(t, x.sock, y.sock);
    assert Ended(s, t, i, j);
  }
}
