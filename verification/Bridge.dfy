/** The bridge's calls (src/bridge/pcie_cosim_bridge.cpp) over its end of the main channel, and the channel
    selector they share with the interrupt listener. */
module Bridge {
  import opened Protocol
  import opened Receive
  import opened Device
  import opened SoftTlp

  const EIO := 5

  /** A receive on any cutting of the reply stream, with timeouts anywhere in it and `coming` not yet sent
      off: it is the system's Answer if a packet comes in full before the next timeout, with the same
      packet, bytes left and verdict. Otherwise it fails, and leaves the stream as the system's GiveUp does if
      and only if no byte came before the timeout. */
  lemma {:induction false} ReceiveIsAnswerOrGiveUp(w: Wires, h: History, q: seq<Receive.Event>, coming: seq<Byte>)
    requires w.waiting.Some? && QueueOk(q) && All(q) + coming == w.toBridge
    ensures match ReceivePacket(ToBridge, q)
            case Got(p, rest) =>
              && Parse(ToBridge, Clear(q)).Some?
              && Enabled(w, Answer) && All(rest) + coming == Step(w, Answer).toBridge
              && var ended := Record(h, w, Answer).ended[|h.ended|];
                 ended.data == p.payload && ended.ok == Matches(p.h, w.waiting.value)
            case Invalid(left) =>
              && Parse(ToBridge, Clear(q)).None?
              && Enabled(w, GiveUp) && Clear(q) + (All(left) + coming) == w.toBridge
              && (All(left) + coming == Step(w, GiveUp).toBridge <==> Clear(q) == [])
              && Record(h, w, GiveUp).ended[|h.ended|].timedOut
  {
    hide Clear, ReceivePacket, All, Encode, Parse, Behind, WellFormed;
    ReceiveIsParse(ToBridge, q);
    if Parse(ToBridge, Clear(q)).Some? {
      GotConserves(ToBridge, q);
      var r := ReceivePacket(ToBridge, q);
      JoinAssociates(Encode(r.p), All(r.rest), coming);
      ReceivedIsWellFormed(ToBridge, q);
      ParseEncode(ToBridge, r.p, All(r.rest) + coming);
    } else {
      FailedReceive(ToBridge, q);
      var left := Behind(q);
      JoinAssociates(Clear(q), All(left), coming);
    }
  }

  lemma ReceivedIsWellFormed(d: Direction, q: seq<Receive.Event>)
    requires QueueOk(q)
    ensures ReceivePacket(d, q).Got? ==> WellFormed(d, ReceivePacket(d, q).p)
  {
    ReceiveIsParse(d, q);
    if Parse(d, Clear(q)).Some? {
      EncodeParse(d, Clear(q));
    }
  }

  /** The packet pcie_bridge makes of its arguments: the count is cut to sixteen bits, and a write carries
      as many bytes as its header says. */
  function PackedRequest(
      bar: nat, offset: nat, count: nat, write: bool, data: seq<Byte>, tag: Byte, pad: Byte): (p: Packet)
    requires bar <= 1 && offset < BAR_UNIT && |data| == (if write then count % 0x1_0000 else 0)
    ensures WellFormed(ToSim, p)
  {
    Packet(Header(offset + bar * BAR_UNIT, REQUESTER_ID, count % 0x1_0000,
                  if write then MEM_WR else MEM_RD, tag, 0, pad), data)
  }

  lemma PackedIsRequest(a: Access, tag: Byte, pad: Byte)
    requires AccessOk(a)
    ensures PackedRequest(a.bar, a.offset, a.count, a.write, a.data, tag, pad) == RequestPacket(a, tag, pad)
  {
  }

  class Caller {
    var tran: Byte
    var sent: seq<Byte>
    const main: Socket

    constructor (main: Socket)
      ensures tran == 1 && sent == [] && this.main == main
    {
      tran, sent, this.main := 1, [], main;
    }

    /** pcie_bridge: one request packet goes out under the next tag; a write returns at once, a read
        returns the data of the next packet if that is its answer, and an error otherwise. `overrun`: the
        packet that comes announces more than the caller's buffer holds. */
    method PcieBridge(bar: nat, buf: array<Byte>, count: nat, offset: nat, isWrite: bool, pad: Byte)
      returns (ret: int, overrun: bool)
      requires bar <= 1 && offset < BAR_UNIT && count <= buf.Length && main.Valid()
      modifies this, main, buf
      ensures main.Valid() && tran == (old(tran) + 1) % 256
      ensures overrun <==> !isWrite && Announced(old(main.queue)) > buf.Length
      ensures var data := if isWrite then old(buf[..count % 0x1_0000]) else [];
              var request := PackedRequest(bar, offset, count, isWrite, data, old(tran), pad);
              && sent == old(sent) + Encode(request)
              && if isWrite then ret == count && buf[..] == old(buf[..]) && main.queue == old(main.queue)
                 else !overrun ==>
                   match ReceivePacket(ToBridge, old(main.queue))
                   case Invalid(rest) => ret == -EIO && main.queue == rest
                   case Got(p, rest) =>
                     && main.queue == rest
                     && (ret == count <==> p.h.kind == ACK && p.h.tag == old(tran) && p.h.count == count)
                     && (ret == count || ret == -EIO)
                     && (ret == count ==> buf[..count] == p.payload)
    {
      var addr, short := offset + bar * BAR_UNIT, count % 0x1_0000;
      var pkt := Header(addr, REQUESTER_ID, short, if isWrite then MEM_WR else MEM_RD, tran, 0, pad);
      tran := (tran + 1) % 256;
      overrun := false;
      if isWrite {
        sent := sent + (EncodeHeader(pkt) + buf[..short]);
        return count, false;
      }
      sent := sent + EncodeHeader(pkt);
      assert EncodeHeader(pkt) + [] == EncodeHeader(pkt);
      ReceivedIsWellFormed(ToBridge, main.queue);
      var ok, resp;
      ok, overrun, resp := main.ReceiveHeaderAndData(buf);
      if resp.kind == ACK && resp.tag == pkt.tag && resp.count == count {
        ret := count;
      } else {
        ret := -EIO;
      }
    }
  }

  // ---- The shared channel selector ----

  datatype Channel = MainChannel | AsyncChannel

  /** Where the listener is: waiting in poll, inside asyncListen's receive, or holding a MSG with the
      selector not yet put back; or out of its loop. */
  datatype Listener = Polling | Receiving | Holding | Left

  /** The selector, the listener, and which channel each lookup of the main thread found. */
  datatype Shared = Shared(channel: Channel, listener: Listener, used: seq<Channel>)

  datatype Race =
    | Select            // asyncListen: channel = ASYNC_CHANNEL
    | Take(kind: Byte)  // its receive returns a packet of this type
    | Hangup            // poll reports POLLHUP: asyncListen returns without selecting
    | Restore           // the listener: channel = MAIN_CHANNEL, after a MSG only
    | Use               // the main thread looks up socket[channel]

  predicate CanDo(s: Shared, e: Race) {
    match e
    case Select => s.listener.Polling?
    case Hangup => s.listener.Polling?
    case Take(_) => s.listener.Receiving?
    case Restore => s.listener.Holding?
    case Use => true
  }

  function Do(s: Shared, e: Race): Shared {
    match e
    case Select => s.(channel := AsyncChannel, listener := Receiving)
    case Take(kind) => s.(listener := if kind == MSG then Holding else if kind == STATUS then Polling else Left)
    case Hangup => s.(listener := Left)
    case Restore => s.(channel := MainChannel, listener := Polling)
    case Use => s.(used := s.used + [s.channel])
  }

  const AT_REST := Shared(MainChannel, Polling, [])

  predicate Possible(es: seq<Race>) {
    es == [] ||
    var n := |es| - 1;
    Possible(es[..n]) && CanDo(SharedAfter(es[..n]), es[n])
  }

  function SharedAfter(es: seq<Race>): Shared {
    if es == [] then AT_REST else Do(SharedAfter(es[..|es| - 1]), es[|es| - 1])
  }

  /** The listener has selected its channel and not restored the other since. */
  predicate Exposed(es: seq<Race>) {
    es != [] && (es[|es| - 1] == Select || (es[|es| - 1] != Restore && Exposed(es[..|es| - 1])))
  }

  function Uses(es: seq<Race>): nat {
    if es == [] then 0 else Uses(es[..|es| - 1]) + if es[|es| - 1] == Use then 1 else 0
  }

  /** The main thread finds the main channel at every lookup if and only if none of its lookups falls
      between a Select and the next Restore. */
  lemma {:induction false} MainTrafficIffNotExposed(es: seq<Race>)
    requires Possible(es)
    ensures SharedAfter(es).channel == (if Exposed(es) then AsyncChannel else MainChannel)
    ensures |SharedAfter(es).used| == Uses(es)
    ensures AsyncChannel !in SharedAfter(es).used <==> UsedApart(es)
  {
    if es != [] {
      var n := |es| - 1;
      MainTrafficIffNotExposed(es[..n]);
      ApartStep(es);
      var before := SharedAfter(es[..n]);
      assert es[n] == Use ==> SharedAfter(es).used == before.used + [before.channel];
    }
  }

  /** No use of the main thread falls inside the listener's span. */
  predicate UsedApart(es: seq<Race>) {
    forall k :: 0 <= k < |es| && es[k] == Use ==> !Exposed(es[..k])
  }

  lemma ApartStep(es: seq<Race>)
    requires es != []
    ensures var n := |es| - 1; UsedApart(es) <==> UsedApart(es[..n]) && (es[n] == Use ==> !Exposed(es[..n]))
  {
    hide Exposed;
    var n := |es| - 1;
    assert forall k :: 0 <= k < n ==> es[..n][..k] == es[..k];
    assert forall k :: 0 <= k < n ==> es[..n][k] == es[k];
    if UsedApart(es) {
      forall k | 0 <= k < n && es[..n][k] == Use ensures !Exposed(es[..n][..k]) {
        assert !Exposed(es[..k]);
      }
    }
  }

  /** With a request sent inside the span, the code sends it to the wrong peer socket. */
  lemma InterleavedSendGoesAstray()
    ensures var es := [Select, Use, Take(MSG), Restore];
            Possible(es) && SharedAfter(es).used == [AsyncChannel]
  {
    var es := [Select, Use, Take(MSG), Restore];
    assert es[..3] == [Select, Use, Take(MSG)] && es[..3][..2] == [Select, Use] && es[..3][..2][..1] == [Select];
    assert SharedAfter([Select]) == Shared(AsyncChannel, Receiving, []);
    assert SharedAfter([Select, Use]) == Shared(AsyncChannel, Receiving, [AsyncChannel]);
    assert Possible([Select]) && Possible([Select, Use]) && Possible(es[..3]);
  }

  predicate OnlyUses(es: seq<Race>) {
    forall k :: 0 <= k < |es| ==> es[k] == Use
  }

  /** Only a MSG puts the selector back. Once the listener has taken anything that is neither MSG nor
      STATUS it is out of its loop, and everything the main thread does afterwards, its NACK included,
      uses the async channel. */
  lemma {:induction false} AfterTheListenerLeaves(es: seq<Race>, kind: Byte, more: seq<Race>)
    requires Possible(es + [Take(kind)] + more) && kind != MSG && kind != STATUS
    ensures OnlyUses(more) && SharedAfter(es + [Take(kind)] + more).listener == Left
    ensures SharedAfter(es + [Take(kind)] + more).channel == AsyncChannel
    ensures SharedAfter(es + [Take(kind)] + more).used == SharedAfter(es).used + seq(|more|, _ => AsyncChannel)
    decreases |more|
  {
    var all, n := es + [Take(kind)] + more, |more| - 1;
    if more == [] {
      assert all[..|all| - 1] == es && all[|all| - 1] == Take(kind);
      ReceivingSelected(es);
    } else {
      assert all[..|all| - 1] == es + [Take(kind)] + more[..n] && all[|all| - 1] == more[n];
      AfterTheListenerLeaves(es, kind, more[..n]);
    }
  }

  /** After a MSG the next Restore brings the selector back. After a STATUS there is none: the listener polls
      again with the selector left on async, and so the main thread's lookups find it until the next MSG. */
  lemma {:induction false} StatusLeavesSelector(es: seq<Race>, more: seq<Race>)
    requires Possible(es + [Take(STATUS)] + more) && OnlyUses(more)
    ensures SharedAfter(es + [Take(STATUS)] + more).listener == Polling
    ensures SharedAfter(es + [Take(STATUS)] + more).channel == AsyncChannel
    ensures SharedAfter(es + [Take(STATUS)] + more).used == SharedAfter(es).used + seq(|more|, _ => AsyncChannel)
    decreases |more|
  {
    var all, n := es + [Take(STATUS)] + more, |more| - 1;
    if more == [] {
      assert all[..|all| - 1] == es && all[|all| - 1] == Take(STATUS);
      ReceivingSelected(es);
    } else {
      assert all[..|all| - 1] == es + [Take(STATUS)] + more[..n] && all[|all| - 1] == more[n];
      StatusLeavesSelector(es, more[..n]);
    }
  }

  lemma {:induction false} MessageRestoresSelector(es: seq<Race>)
    requires Possible(es) && SharedAfter(es).listener.Receiving?
    ensures Possible(es + [Take(MSG)] + [Restore])
    ensures SharedAfter(es + [Take(MSG)] + [Restore]) == Shared(MainChannel, Polling, SharedAfter(es).used)
  {
    var took := es + [Take(MSG)];
    assert took[..|es|] == es && took[|es|] == Take(MSG);
    assert Possible(took) && SharedAfter(took) == Do(SharedAfter(es), Take(MSG));
    var all := took + [Restore];
    assert all[..|took|] == took && all[|took|] == Restore;
  }

  lemma {:induction false} ReceivingSelected(es: seq<Race>)
    requires Possible(es) && (SharedAfter(es).listener.Receiving? || SharedAfter(es).listener.Holding?)
    ensures SharedAfter(es).channel == AsyncChannel
  {
    var n := |es| - 1;
    if !es[n].Select? && !es[n].Restore? {
      ReceivingSelected(es[..n]);
    }
  }
}
