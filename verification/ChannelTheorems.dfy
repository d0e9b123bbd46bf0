/**
 What the close handshake and the byte accounting mean for every state of every run.
 */
module ChannelTheorems {
  import opened Bytes
  import opened Channels
  import opened ChannelSafety
  import opened ChannelBytes
  import opened ChannelRuns

  /** No run reaches a protocol disconnect or a failed assertion, whatever message comes
      next, and a new channel always finds a slot. */
  lemma NoDisconnect(run: seq<System>, k: nat, accept: bool, isX: bool)
    requires IsRun(run) && k < |run|
    ensures var s := run[k];
            && (s.b.wire != [] ==> Receive(s.a, s.b.wire[0], accept, isX).Done?)
            && (s.a.wire != [] ==> Receive(s.b, s.a.wire[0], accept, isX).Done?)
            && Slot(s.a) < |Grow(s.a).channels| && Slot(s.b) < |Grow(s.b).channels|
  {
    RunGood(run, k);
    var s := run[k];
    AllGoodSwap(s.a, s.b, s.pairs);
    if s.b.wire != [] { ReceiveKeeps(s.a, s.b, s.pairs, accept, isX); }
    if s.a.wire != [] { ReceiveKeeps(s.b, s.a, Swap(s.pairs), accept, isX); }
    AllocateFindsSlot(s.a);
    AllocateFindsSlot(s.b);
  }

  function CountEof(q: seq<Message>): nat {
    if q == [] then 0 else (if q[0].InputEof? then 1 else 0) + CountEof(q[1..])
  }

  function CountClose(q: seq<Message>): nat {
    if q == [] then 0 else (if q[0].OutputClosed? then 1 else 0) + CountClose(q[1..])
  }

  function Bit(b: bool): nat { if b then 1 else 0 }

  lemma {:induction false} FlowCounts(q: seq<Message>, er: bool, cr: bool, es: bool, cs: bool)
    requires Flow(q, er, cr, es, cs)
    ensures Bit(er) + CountEof(q) == Bit(es)
    ensures Bit(cr) + CountClose(q) == Bit(cs)
    ensures forall x, y :: 0 <= x < y < |q| && q[x].InputEof? ==> !q[y].Data?
  {
    if q != [] {
      var er', cr' := er || q[0].InputEof?, cr || q[0].OutputClosed?;
      FlowReceive(q, er, cr);
      FlowCounts(q[1..], er', cr', es, cs);
      if q[0].InputEof? { NoDataAfterEof(q[1..], cr', es, cs); }
      assert forall y :: 1 <= y < |q| ==> q[y] == q[1..][y - 1];
    }
  }

  /** After EOF only a close message can follow. */
  lemma NoDataAfterEof(q: seq<Message>, cr: bool, es: bool, cs: bool)
    requires Flow(q, true, cr, es, cs)
    ensures |q| <= 1 && forall y :: 0 <= y < |q| ==> q[y].OutputClosed?
  {
    if q != [] {
      FlowMonotone(q[1..], true, true, es, cs);
    }
  }

  /** A slot that is free (or a listener) has no message on its way, and whoever still
      names it has sent both its EOF and its close message and will send nothing more. */
  lemma FreeSlotIsSilent(run: seq<System>, k: nat, i: int, j: int)
    requires IsRun(run) && k < |run|
    ensures var s := run[k];
            At(s.a, i).kind in {Free, Listener} ==>
              && Pending(s.b.wire, i) == []
              && (At(s.b, j).kind == Open && At(s.b, j).remoteId == i ==>
                    && At(s.b, j).status.eofSent && At(s.b, j).status.closeSent
                    && At(s.b, j).status.inputClosed && At(s.b, j).status.outputClosed
                    && At(s.b, j).input == [] && At(s.b, j).output == [])
  {
    RunGood(run, k);
    assert SlotOk(run[k].a, run[k].b, i);
    assert SlotOk(run[k].b, run[k].a, j);
  }

  /** Slot i has its other end: the slot it names is open and names it back, or one of the two
      still waits for the confirmation that is on its way. */
  ghost predicate LinkedAt(me: Table, peer: Table, i: int) {
    var own, q := At(me, i), Pending(peer.wire, i);
    var r := Partner(own, q);
    Linked(i, own, q, At(peer, r), Pending(me.wire, r))
  }

  /** When the other end of an open channel is gone, whether its slot is free, listens, or was
      taken again for another channel, open or still opening, the EOF and close messages this
      channel has not received are exactly those still travelling to it, and one at least is. */
  lemma MissingBitsAreInFlight(run: seq<System>, k: nat, i: int)
    requires IsRun(run) && k < |run|
    requires At(run[k].a, i).kind == Open
    requires !LinkedAt(run[k].a, run[k].b, i)
    ensures var q, st := Pending(run[k].b.wire, i), At(run[k].a, i).status;
            && CountEof(q) == Bit(!st.eofReceived) && CountClose(q) == Bit(!st.closeReceived)
            && CountEof(q) + CountClose(q) >= 1
            && forall x, y :: 0 <= x < y < |q| && q[x].InputEof? ==> !q[y].Data?
  {
    RunGood(run, k);
    assert SlotOk(run[k].a, run[k].b, i);
    var st := At(run[k].a, i).status;
    FlowCounts(Pending(run[k].b.wire, i), st.eofReceived, st.closeReceived, true, true);
    assert !st.Terminates();
  }

  /** When nothing is in flight the open channels of the two ends are matched one to one,
      each end knows exactly what the other has sent, and no matched pair is finished:
      a finished pair would have been freed. */
  lemma QuietLinksMatchChannels(run: seq<System>, k: nat, i: int)
    requires IsRun(run) && k < |run| && run[k].a.wire == [] && run[k].b.wire == []
    ensures At(run[k].a, i).kind != Opening
    ensures At(run[k].a, i).kind == Open ==>
              var j := At(run[k].a, i).remoteId;
              var x, y := At(run[k].a, i).status, At(run[k].b, j).status;
              && At(run[k].b, j).kind == Open && At(run[k].b, j).remoteId == i
              && x.eofReceived == y.eofSent && x.closeReceived == y.closeSent
              && y.eofReceived == x.eofSent && y.closeReceived == x.closeSent
              && !(x.eofSent && x.closeSent && y.eofSent && y.closeSent)
  {
    RunGood(run, k);
    QuietMatch(run[k].a, run[k].b, run[k].pairs, i);
  }

  lemma QuietMatch(a: Table, b: Table, pairs: Pairs, i: int)
    requires AllGood(a, b, pairs) && a.wire == [] && b.wire == []
    ensures At(a, i).kind != Opening
    ensures At(a, i).kind == Open ==>
              var j := At(a, i).remoteId;
              var x, y := At(a, i).status, At(b, j).status;
              && At(b, j).kind == Open && At(b, j).remoteId == i
              && x.eofReceived == y.eofSent && x.closeReceived == y.closeSent
              && y.eofReceived == x.eofSent && y.closeReceived == x.closeSent
              && !(x.eofSent && x.closeSent && y.eofSent && y.closeSent)
  {
    assert SlotOk(a, b, i);
    assert SlotOk(b, a, At(a, i).remoteId);
    assert At(a, i).kind == Open ==> !At(a, i).status.Terminates();
  }

  /** For every connection ever made, what was written at one end is a prefix of what was
      read at the other, in both directions; where an output was closed because EOF had
      come and nothing was left to write, the two are equal. */
  lemma WrittenIsPrefixOfRead(run: seq<System>, k: nat, s: int, t: int)
    requires IsRun(run) && k < |run| && (s, t) in run[k].pairs
    ensures var a, b := run[k].a, run[k].b;
            && WrittenOf(b, t) <= ReadOf(a, s) && WrittenOf(a, s) <= ReadOf(b, t)
            && (DrainedOf(b, t) ==> WrittenOf(b, t) == ReadOf(a, s))
            && (DrainedOf(a, s) ==> WrittenOf(a, s) == ReadOf(b, t))
  {
    RunGood(run, k);
    SwapIn(run[k].pairs);
    assert PairOk(run[k].a, run[k].b, s, t);
    assert PairOk(run[k].b, run[k].a, t, s);
  }

  /** While the receiving end's output is open, no byte is lost or duplicated: read is
      written, then output buffer, then link, then input buffer.  This includes the time in
      which either end still waits for its confirmation. */
  lemma NoByteLost(run: seq<System>, k: nat, i: int)
    requires IsRun(run) && k < |run| && LinkedAt(run[k].a, run[k].b, i)
    requires !At(run[k].b, Partner(At(run[k].a, i), Pending(run[k].b.wire, i))).status.outputClosed
    ensures var a, b := run[k].a, run[k].b;
            var j := Partner(At(a, i), Pending(b.wire, i));
            && (At(a, i).sock, At(b, j).sock) in run[k].pairs
            && ReadOf(a, At(a, i).sock) ==
               WrittenOf(b, At(b, j).sock) + At(b, j).output + Payload(Pending(a.wire, j)) + At(a, i).input
  {
    RunGood(run, k);
    assert LinkOk(run[k].a, run[k].b, run[k].pairs, i);
  }

  /** The guarantees above do not depend on which end is called a. */
  lemma RunMirror(run: seq<System>)
    requires IsRun(run)
    ensures IsRun(seq(|run|, k requires 0 <= k < |run| => System(run[k].b, run[k].a, Swap(run[k].pairs))))
  {
    var mirror := seq(|run|, k requires 0 <= k < |run| => System(run[k].b, run[k].a, Swap(run[k].pairs)));
    forall k | 0 <= k < |mirror| - 1 ensures Next(mirror[k], mirror[k + 1]) {
      var s, s' := run[k], run[k + 1];
      assert Next(s, s');
      SwapTwice(s.pairs);
      SwapTwice(s'.pairs);
    }
  }
}
