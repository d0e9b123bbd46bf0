/**
 Delivery: from every reachable state, octets that a socket offers to a channel whose input is open
 can be brought to the socket at the other end while that end's output is open.
 */
module ChannelDelivery {
  import opened Bytes
  import opened Channels
  import opened ChannelSafety
  import opened ChannelBytes
  import opened ChannelRuns
  import opened ChannelTheorems
  import opened ChannelProgress
  import ChannelLaws

  /** An open channel takes these octets in one read(). */
  predicate Takes(c: Setting, ch: Channel, data: seq<byte>) {
    && ch.kind == Open && !ch.status.inputClosed
    && c.maxPacket >= 4 && 0 < |data| <= 16384 && |data| <= c.maxPacket / 4
  }

  /** What select() answers when only the socket of slot i is ready, and offers the data. */
  function OfferAt(i: nat, data: seq<byte>): seq<Event> {
    seq(i, _ => NO_EVENT) + [NO_EVENT.(readable := true, incoming := data)]
  }

  /** Slot i of end a sends all of its input, which stays open. */
  lemma {:induction false} SendInput(c: Settings, s: System, i: int) returns (t: System)
    requires SystemGood(s) && c.a.Moves() && At(s.a, i).kind == Open && !At(s.a, i).status.inputClosed
    ensures SystemGood(t) && Reaches(c, s, t) && SystemLater(s, t) && t.b == s.b
    ensures At(t.a, i) == At(s.a, i).(input := [])
    decreases |At(s.a, i).input|
  {
    hide At, AllGood, Reaches, SystemLater;
    t := s;
    ReachesItself(c, s);
    SameSystemLater(s);
    if At(s.a, i).input != [] {
      var u := PollAll(c, s);
      t := SendInput(c, u, i);
      ReachesOn(c, s, u, t);
      SystemLaterOn(s, u, t);
    }
  }

  lemma ReadsAt(c: Setting, t: Table, i: int, w: Watch, data: seq<byte>)
    requires WellFormed(t) && Takes(c, At(t, i), data) && At(t, i).sock in w.readset
    ensures Slot(t) < |Grow(t).channels|
    ensures var x, t' := At(t, i), AfterSlot(t, i, w, NO_EVENT.(readable := true, incoming := data), c.maxPacket);
            && At(t', i) == x.(input := x.input + data)
            && ReadOf(t', x.sock) == ReadOf(t, x.sock) + data
  {
    AllocateFindsSlot(t);
    assert data[..Min(|data|, Min(16384, c.maxPacket / 4))] == data;
    hide Slot, Grow, NumUsed;
  }

  /** One trip through select() with the offer. */
  lemma SelectPassReads(c: Setting, t: Table, i: int, data: seq<byte>)
    requires WellFormed(t) && Takes(c, At(t, i), data) && At(t, i).input == []
    requires forall j :: At(t, j).kind == Open ==> Consistent(At(t, j))
    ensures var x, t' := At(t, i), SelectPass(t, OfferAt(i, data), c.maxPacket);
            && At(t', i) == Prepared(x).(input := data)
            && ReadOf(t', x.sock) == ReadOf(t, x.sock) + data
  {
    var x, events := At(t, i), OfferAt(i, data);
    PreparePassAt(c, t, 0, Watch({}, {}));
    ChannelLaws.PreparePassWatch(t, 0, Watch({}, {}), c.maxPacket);
    var (t1, w) := PreparePass(t, 0, Watch({}, {}), c.maxPacket);
    assert ChannelLaws.ReadsFrom(t.channels, 0, c.maxPacket, x.sock) by {
      assert t.channels[i] == x && ChannelLaws.Reads(x, c.maxPacket);
    }
    assert At(t1, i) == Prepared(x);
    assert ReadOf(t1, x.sock) == ReadOf(t, x.sock);
    hide At, TableLater, Consistent, ReadOf, ChannelLaws.ReadsFrom;
    AfterPassOnly(c, t1, 0, |t1.channels|, w, events, i);
    ReadsAt(c, t1, i, w, data);
  }

  lemma SelectOffer(c: Settings, s: System, i: int, data: seq<byte>) returns (t: System)
    requires SystemGood(s) && Takes(c.a, At(s.a, i), data) && At(s.a, i).input == []
    ensures SystemGood(t) && Reaches(c, s, t) && t.b == s.b && t.pairs == s.pairs
    ensures At(t.a, i) == Prepared(At(s.a, i)).(input := data)
    ensures ReadOf(t.a, At(s.a, i).sock) == ReadOf(s.a, At(s.a, i).sock) + data
  {
    GoodHere(s.a, s.b, s.pairs, i);
    AllConsistent(s.a, s.b, s.pairs);
    SelectPassReads(c.a, s.a, i, data);
    hide At, AllGood, Reaches, SelectPass, ReadOf;
    var events := OfferAt(i, data);
    t := Act(c, s, Select(events), SelectPass(s.a, events, c.a.maxPacket), s.b, s.pairs);
  }

  /** The two ends of a connection. */
  ghost predicate Connected(s: System, i: int, j: int) {
    && At(s.a, i).kind == Open && At(s.b, j).kind == Open
    && At(s.a, i).remoteId == j && At(s.b, j).remoteId == i
  }

  /** Nothing is in flight to slot j and nothing is left in the input of slot i. */
  lemma AllWritten(s: System, i: int, j: int)
    requires SystemGood(s) && Connected(s, i, j) && !At(s.b, j).status.outputClosed
    requires s.a.wire == [] && At(s.a, i).input == []
    ensures ReadOf(s.a, At(s.a, i).sock) == WrittenOf(s.b, At(s.b, j).sock) + At(s.b, j).output
  {
    assert LinkOk(s.a, s.b, s.pairs, i);
  }

  /** What was read and sent is delivered and written. */
  lemma Deliver(c: Settings, s: System, i: int, j: int) returns (t: System)
    requires SystemGood(s) && Connected(s, i, j) && At(s.a, i).input == [] && !At(s.b, j).status.outputClosed
    ensures Reaches(c, s, t)
    ensures WrittenOf(t.b, At(s.b, j).sock) == ReadOf(s.a, At(s.a, i).sock)
  {
    var x, y := At(s.a, i), At(s.b, j);
    assert (x.sock, y.sock) in s.pairs by {
      assert LinkOk(s.a, s.b, s.pairs, i);
    }
    t := Drain(c, s);
    DrainedGotAll(t, x.sock, y.sock);
    EndsLater(s, t, i, j);
    if !DrainedOf(t.b, y.sock) {
      BothMatch(t, i, j);
      AllWritten(t, i, j);
      if At(t.b, j).output != [] {
        MirrorGood(t);
        var u := SelectAt(c.Mirror(), Mirror(t), j);
        MirrorBack(c, t, u);
        AllWritten(Mirror(u), i, j);
        hide AllGood, Reaches, SystemLater, At, ReadOf, WrittenOf;
        ReachesOn(c, s, t, Mirror(u));
        t := Mirror(u);
      }
    }
  }

  /** From every state of a run in which the input at one end of a connection and the output at the
      other are open, some continuation reads what the socket offers and writes it at the other end,
      behind everything that was read before. */
  lemma OfferArrives(c: Settings, run: seq<System>, k: nat, i: int, j: int, data: seq<byte>)
    requires IsRun(run) && k < |run| && c.Moves() && Connected(run[k], i, j)
    requires Takes(c.a, At(run[k].a, i), data) && !At(run[k].b, j).status.outputClosed
    ensures var x, y := At(run[k].a, i), At(run[k].b, j);
            exists t: System ::
              && Reaches(c, run[k], t)
              && WrittenOf(t.b, y.sock) == ReadOf(run[k].a, x.sock) + data
  {
    var s := run[k];
    RunGood(run, k);
    var x, y := At(s.a, i), At(s.b, j);
    hide At, AllGood, Reaches, IsRun, WrittenOf, SystemLater;
    var u := SendInput(c, s, i);
    EndsLater(s, u, i, j);
    var v := SelectOffer(c, u, i, data);
    var w := SendInput(c, v, i);
    EndsLater(v, w, i, j);
    var t := Deliver(c, w, i, j);
    ReachesOn(c, s, u, v);
    ReachesOn(c, s, v, w);
    ReachesOn(c, s, w, t);
  }
}
