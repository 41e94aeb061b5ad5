/** What looking the selector up in the listener's span does to the system of SharedTlp: from wherever a
    separate run stands between two calls, with an interrupt message on its way. */
module ListenerSpan {
  import opened Protocol
  import opened Device
  import opened SharedTlp
  import Tlp = SoftTlp
  import EndToEnd
  import Bridge

  predicate ListenersOwn(e: Event) {
    e.Select? || e.Take? || e.Restore?
  }

  predicate OnlyListener(es: seq<Event>) {
    forall e :: e in es ==> ListenersOwn(e)
  }

  predicate NoMainUse(es: seq<Event>) {
    forall e :: e in es ==> !MainUses(e)
  }

  predicate OnlyServes(es: seq<Event>) {
    forall e :: e in es ==> e.Serve?
  }

  lemma OnlyListenerJoin(a: seq<Event>, b: seq<Event>)
    ensures OnlyListener(a) && OnlyListener(b) ==> OnlyListener(a + b)
    ensures OnlyListener([]) && OnlyListener([Select]) && OnlyListener([Take] + [Restore])
    ensures OnlyListener([Select] + [Take])
  {
  }

  lemma NoMainUseJoin(a: seq<Event>, b: seq<Event>)
    requires OnlyListener(a) && NoMainUse(b)
    ensures NoMainUse(a + b)
  {
  }

  /** The main thread is between calls, the listener polls, and an interrupt message has arrived. */
  predicate SpanCanOpen(s: Sys) {
    s.call.Idle? && s.shared.listener.Polling? && s.w.async != []
  }

  /** In a separate run the async stream holds interrupt messages and nothing else. */
  lemma {:induction false} Messages(d0: Regs, es: seq<Event>) returns (msgs: seq<Packet>)
    requires RegsOk(d0) && Possible(d0, es) && Separate(d0, es)
    ensures var s := SysAfter(d0, es);
            && CallOk(s) && ListenerOk(s) && s.stray == [] && RegsOk(s.w.dev)
            && s.w.async == EncodeAll(msgs) && Tlp.MessagesOk(msgs)
  {
    var c := SeparateRunsProject(d0, es);
    var s := SysAfter(d0, es);
    hide Possible, SysAfter, Separate, Projected, Tlp.Reaches, CallOk, ListenerOk;
    Tlp.RunsAreGood(d0, Projected(es), c);
    msgs := c.h.messages[c.h.heard..];
  }

  // ---- The listener empties its stream ----

  /** `s'` is `s` after the listener has read its stream up to `tail`. */
  predicate Heard(s: Sys, s': Sys, tail: seq<Byte>, n: nat) {
    && s' == s.(w := s'.w, shared := s'.shared)
    && s'.w == s.w.(async := tail, vectors := s'.w.vectors) && |s'.w.vectors| == |s.w.vectors| + n
    && s'.shared == s.shared.(channel := Bridge.MainChannel, listener := Bridge.Polling)
  }

  lemma HeardMore(s: Sys, s1: Sys, s2: Sys, mid: seq<Byte>, tail: seq<Byte>, m: nat, n: nat)
    requires Heard(s, s1, mid, m) && Heard(s1, s2, tail, n)
    ensures Heard(s, s2, tail, m + n)
  {
  }

  /** Once it has heard something, the listener's place before does not matter. */
  lemma HeardSinceSelect(s: Sys, s1: Sys, tail: seq<Byte>, n: nat)
    requires s.shared.listener.Polling? && s.w.async != [] && Heard(Step(s, Select), s1, tail, n)
    ensures Heard(s, s1, tail, n)
  {
  }

  lemma HeardLeaves(s: Sys, s1: Sys, tail: seq<Byte>, n: nat)
    requires Heard(s, s1, tail, n)
    ensures s1.shared.listener.Polling? && OnMain(s1) && s1.held == s.held && s1.w.async == tail
    ensures s1.call == s.call && s1.limited == s.limited && s1.stray == s.stray
    ensures s1.w.waiting == s.w.waiting && s1.w.dev == s.w.dev
    ensures s1.w.toSim == s.w.toSim && s1.w.toBridge == s.w.toBridge
  {
  }

  lemma HeardNothing(s: Sys)
    requires s.shared.listener.Polling? && OnMain(s)
    ensures Heard(s, s, s.w.async, 0)
  {
  }

  lemma {:induction false} FirstMessage(msgs: seq<Packet>, tail: seq<Byte>)
    requires msgs != [] && Tlp.MessagesOk(msgs)
    ensures EncodeAll(msgs) + tail == Encode(InterruptMessage(msgs[0].h.pad)) + (EncodeAll(msgs[1..]) + tail)
    ensures Tlp.MessagesOk(msgs[1..]) && EncodeAll(msgs) + tail != []
  {
    assert msgs[0] == InterruptMessage(msgs[0].h.pad);
    hide Encode;
    JoinAssociates(Encode(msgs[0]), EncodeAll(msgs[1..]), tail);
  }

  lemma JoinRuns(a: seq<Event>, b: seq<Event>, c: seq<Event>)
    ensures (a + b) + c == a + (b + c)
  {
  }

  lemma TakesMessage(s: Sys, pad: Byte, rest: seq<Byte>)
    requires s.shared.listener.Receiving? && s.held == [] && s.w.async == Encode(InterruptMessage(pad)) + rest
    ensures Enabled(s, Take)
    ensures var s' := Step(s, Take);
            && |s'.held| == 1 && s' == s.(w := s.w.(async := rest), held := s'.held, shared := s'.shared)
            && s'.shared == s.shared.(listener := Bridge.Holding)
  {
    ParseEncode(ToBridge, InterruptMessage(pad), rest);
    hide Parse, Encode, FromLe;
  }

  lemma Delivers(s: Sys)
    requires s.shared.listener.Holding? && |s.held| == 1
    ensures Enabled(s, Restore) && Heard(s.(held := []), Step(s, Restore), s.w.async, 1)
  {
  }

  /** From its receive on: it delivers the interrupt and puts the selector back. */
  lemma {:induction false} HearOne(d0: Regs, es: seq<Event>, pad: Byte, rest: seq<Byte>)
    requires Possible(d0, es)
    requires var s := SysAfter(d0, es);
             s.shared.listener.Receiving? && s.held == [] && s.w.async == Encode(InterruptMessage(pad)) + rest
    ensures var all := es + [Take] + [Restore];
            Possible(d0, all) && Heard(SysAfter(d0, es), SysAfter(d0, all), rest, 1)
  {
    hide Possible, SysAfter, Enabled, Step, Encode;
    var s := SysAfter(d0, es);
    TakesMessage(s, pad, rest);
    Go(d0, es, Take);
    Delivers(Step(s, Take));
    Go(d0, es + [Take], Restore);
  }

  lemma Selects(s: Sys)
    requires s.shared.listener.Polling? && s.w.async != []
    ensures Enabled(s, Select)
    ensures Step(s, Select) == s.(shared := s.shared.(channel := Bridge.AsyncChannel, listener := Bridge.Receiving))
  {
  }

  lemma NothingMore(es: seq<Event>, tail: seq<Byte>)
    ensures es + [] == es && EncodeAll([]) + tail == tail
  {
  }

  /** From its poll on: one message after the other, up to anything that follows them. */
  lemma {:induction false} HearAll(d0: Regs, es: seq<Event>, msgs: seq<Packet>, tail: seq<Byte>)
    returns (more: seq<Event>)
    requires Possible(d0, es) && Tlp.MessagesOk(msgs)
    requires var s := SysAfter(d0, es);
             s.shared.listener.Polling? && OnMain(s) && s.held == [] && s.w.async == EncodeAll(msgs) + tail
    ensures Possible(d0, es + more) && Heard(SysAfter(d0, es), SysAfter(d0, es + more), tail, |msgs|)
    ensures OnlyListener(more)
    decreases |msgs|, 0
  {
    hide Possible, SysAfter, Enabled, Step, Encode, EncodeAll, Heard, OnMain, OnlyListener;
    var s := SysAfter(d0, es);
    OnlyListenerJoin([], []);
    if msgs == [] {
      more := [];
      NothingMore(es, tail);
      HeardNothing(s);
    } else {
      FirstMessage(msgs, tail);
      Selects(s);
      Go(d0, es, Select);
      var rest := HearRest(d0, es + [Select], msgs, tail);
      more := [Select] + rest;
      JoinRuns(es, [Select], rest);
      OnlyListenerJoin([Select], rest);
      HeardSinceSelect(s, SysAfter(d0, es + more), tail, |msgs|);
    }
  }

  /** The same from its receive on. */
  lemma {:induction false} HearRest(d0: Regs, es: seq<Event>, msgs: seq<Packet>, tail: seq<Byte>)
    returns (more: seq<Event>)
    requires Possible(d0, es) && Tlp.MessagesOk(msgs) && msgs != []
    requires var s := SysAfter(d0, es);
             s.shared.listener.Receiving? && s.held == [] && s.w.async == EncodeAll(msgs) + tail
    ensures Possible(d0, es + more) && Heard(SysAfter(d0, es), SysAfter(d0, es + more), tail, |msgs|)
    ensures OnlyListener(more)
    decreases |msgs| - 1, 1
  {
    hide Possible, SysAfter, Enabled, Step, Encode, EncodeAll, Heard, OnMain, OnlyListener;
    FirstMessage(msgs, tail);
    var s, mid := SysAfter(d0, es), EncodeAll(msgs[1..]) + tail;
    HearOne(d0, es, msgs[0].h.pad, mid);
    JoinRuns(es, [Take], [Restore]);
    var es1 := es + ([Take] + [Restore]);
    HeardLeaves(s, SysAfter(d0, es1), mid, 1);
    var rest := HearAll(d0, es1, msgs[1..], tail);
    more := ([Take] + [Restore]) + rest;
    JoinRuns(es, [Take] + [Restore], rest);
    OnlyListenerJoin([Take] + [Restore], rest);
    HeardMore(s, SysAfter(d0, es1), SysAfter(d0, es + more), mid, tail, 1, |msgs| - 1);
  }

  // ---- A read sent in the span ----

  /** The read's request goes to the simulator on the async socket. */
  lemma IssuedAstray(s: Sys, a: Access, pad: Byte)
    requires s.call.Idle? && !OnMain(s) && s.stray == [] && AccessOk(a) && !a.write
    ensures Enabled(s, Issue(a, pad))
    ensures var s', p := Step(s, Issue(a, pad)), RequestPacket(a, s.w.tran, pad);
            && s'.stray == Encode(p) + [] && s'.call.Sent? && s'.w.waiting == Some(p.h)
            && s'.w == s.w.(tran := s'.w.tran, waiting := s'.w.waiting)
            && s'.held == s.held && s'.shared.channel == s.shared.channel && s'.shared.listener == s.shared.listener
  {
    hide EncodeHeader, AccessOk;
    var p := Encode(RequestPacket(a, s.w.tran, pad));
    assert [] + p == p + [];
  }

  function AckOf(a: Access, tag: Byte, dev: Regs, pad: Byte): Packet
    requires RegsOk(dev) && AccessOk(a)
  {
    Acknowledgement(RequestPacket(a, tag, pad).h, BytesOf(ReadWords(dev, a)), pad)
  }

  /** A read request at the head of a stream: served, it leaves the registers alone and asks for no
      interrupt. */
  lemma ReadServed(a: Access, tag: Byte, pad: Byte, dev: Regs)
    requires RegsOk(dev) && AccessOk(a) && !a.write
    ensures var p := RequestPacket(a, tag, pad); var stream := Encode(p) + [];
            && Parse(ToSim, stream) == Some((p, [])) && Servable(stream) && AccessOf(p) == a
            && EncodeAll(Tlp.ServedReply(p, a, dev, pad)) == Encode(AckOf(a, tag, dev, pad))
            && EncodeAll(Tlp.ServedMessage(a, pad)) == [] && After(dev, a) == dev
  {
    var p := RequestPacket(a, tag, pad);
    ParseEncode(ToSim, p, []);
    PacketNamesAccess(a, tag, pad);
    Tlp.EncodeOne(AckOf(a, tag, dev, pad));
    hide Parse, Encode, BytesOf, ReadWords;
    assert EncodeAll([]) == [];
  }

  /** And is acknowledged there. */
  lemma ServedAstray(s: Sys, a: Access, tag: Byte, pad: Byte)
    requires RegsOk(s.w.dev) && AccessOk(a) && !a.write && s.stray == Encode(RequestPacket(a, tag, pad)) + []
    ensures Enabled(s, Serve(false, pad, pad))
    ensures Step(s, Serve(false, pad, pad)) ==
            s.(w := s.w.(async := s.w.async + Encode(AckOf(a, tag, s.w.dev, pad))), stray := [])
  {
    ReadServed(a, tag, pad, s.w.dev);
    hide Parse, Encode, EncodeAll, After, AckOf, Servable, AccessOk, Tlp.ServedReply, Tlp.ServedMessage;
    assert s.w.async + [] == s.w.async && s.w.toBridge + [] == s.w.toBridge;
  }

  lemma AckWellFormed(a: Access, tag: Byte, dev: Regs, pad: Byte)
    requires RegsOk(dev) && AccessOk(a) && !a.write
    ensures var ack := AckOf(a, tag, dev, pad);
            && WellFormed(ToBridge, ack) && ack.h.kind == ACK && |ack.payload| == a.count && a.count >= 4
            && Tlp.Matches(ack.h, RequestPacket(a, tag, pad).h)
  {
  }

  /** It takes an acknowledgement for a message, and is gone. */
  lemma TakesAck(s: Sys, ack: Packet)
    requires s.shared.listener.Receiving? && s.w.async == Encode(ack) && s.held == [] && !OnMain(s)
    requires WellFormed(ToBridge, ack) && ack.h.kind == ACK && 4 <= |ack.payload| <= LISTENER_SIZE
    ensures Enabled(s, Take)
    ensures Step(s, Take) == s.(w := s.w.(async := []), shared := s.shared.(listener := Bridge.Left))
  {
    ParseEncode(ToBridge, ack, []);
    assert Encode(ack) + [] == Encode(ack);
    hide Parse, Encode, FromLe;
  }

  function SentTooLate(a: Access, pad: Byte): seq<Event> {
    [Select] + [Issue(a, pad)] + [Serve(false, pad, pad)]
  }

  lemma {:induction false} ReadAstray(d0: Regs, es: seq<Event>, a: Access, pad: Byte)
    requires Possible(d0, es) && AccessOk(a) && !a.write
    requires var s := SysAfter(d0, es); RegsOk(s.w.dev) && SpanCanOpen(s) && s.stray == []
    ensures var s, all := SysAfter(d0, es), es + SentTooLate(a, pad);
            && Possible(d0, all)
            && var s' := SysAfter(d0, all);
            && s'.w.async == s.w.async + Encode(AckOf(a, s.w.tran, s.w.dev, pad))
            && s'.w.toSim == s.w.toSim && s'.w.toBridge == s.w.toBridge && s'.stray == []
            && s'.call.Sent? && s'.w.waiting.Some? && s'.shared.listener.Receiving? && s'.held == s.held
  {
    var s := SysAfter(d0, es);
    hide Possible, SysAfter, Enabled, Step, Encode, AckOf, AccessOk, RegsOk;
    Selects(s);
    Go(d0, es, Select);
    IssuedAstray(Step(s, Select), a, pad);
    Go(d0, es + [Select], Issue(a, pad));
    ServedAstray(SysAfter(d0, es + [Select] + [Issue(a, pad)]), a, s.w.tran, pad);
    Go(d0, es + [Select] + [Issue(a, pad)], Serve(false, pad, pad));
    JoinRuns(es, [Select], [Issue(a, pad)]);
    JoinRuns(es, [Select] + [Issue(a, pad)], [Serve(false, pad, pad)]);
  }

  lemma {:induction false} GoneWithAck(d0: Regs, es: seq<Event>, ack: Packet)
    requires Possible(d0, es)
    requires var s := SysAfter(d0, es); s.shared.listener.Polling? && s.held == [] && s.w.async == Encode(ack)
    requires WellFormed(ToBridge, ack) && ack.h.kind == ACK && 4 <= |ack.payload| <= LISTENER_SIZE
    ensures var s, all := SysAfter(d0, es), es + ([Select] + [Take]);
            && Possible(d0, all)
            && var s' := SysAfter(d0, all);
            && s' == s.(w := s.w.(async := []), shared := s'.shared)
            && !OnMain(s') && s'.shared.listener.Left?
  {
    var s := SysAfter(d0, es);
    hide Possible, SysAfter, Enabled, Step, EncodeHeader, WellFormed;
    assert s.w.async != [];
    Selects(s);
    Go(d0, es, Select);
    TakesAck(SysAfter(d0, es + [Select]), ack);
    Go(d0, es + [Select], Take);
    JoinRuns(es, [Select], [Take]);
  }

  /** If a read is sent after the listener has selected its channel, it can be served and acknowledged on
      the async channel; the listener delivers its interrupts, takes the acknowledgement for another, and
      is gone with the selector on async. The read's call goes on with nothing left to answer it, and no
      interrupt is heard again. */
  lemma {:induction false} ReadInTheSpan(d0: Regs, es: seq<Event>, a: Access, pad: Byte)
    returns (more: seq<Event>)
    requires RegsOk(d0) && Possible(d0, es) && Separate(d0, es) && SpanCanOpen(SysAfter(d0, es))
    requires AccessOk(a) && !a.write && a.count <= LISTENER_SIZE
    ensures OnlyListener(more)
    ensures var all := es + SentTooLate(a, pad) + more;
            && Possible(d0, all)
            && var s, s' := SysAfter(d0, es), SysAfter(d0, all);
            && s'.call.Sent? && s'.w.waiting.Some? && s'.w.toSim == s.w.toSim && s'.w.toBridge == s.w.toBridge
            && s'.w.async == s'.stray == [] && !OnMain(s') && s'.shared.listener.Left?
  {
    var msgs := Messages(d0, es);
    var s := SysAfter(d0, es);
    assert msgs != [] && s.held == [];
    hide Possible, SysAfter, Separate, Encode, EncodeAll, AckOf, WellFormed, AccessOk, RegsOk, ListenerOk, CallOk;
    ReadAstray(d0, es, a, pad);
    var read := SentTooLate(a, pad);
    var ack := AckOf(a, s.w.tran, s.w.dev, pad);
    hide Heard, OnMain, SpanCanOpen, Tlp.MessagesOk, OnlyListener, SentTooLate;
    var heard := HearRest(d0, es + read, msgs, Encode(ack));
    HeardLeaves(SysAfter(d0, es + read), SysAfter(d0, es + read + heard), Encode(ack), |msgs|);
    AckWellFormed(a, s.w.tran, s.w.dev, pad);
    GoneWithAck(d0, es + read + heard, ack);
    more := heard + ([Select] + [Take]);
    JoinRuns(es + read, heard, [Select] + [Take]);
    OnlyListenerJoin(heard, [Select] + [Take]);
  }

  // ---- A receive begun in the span ----

  lemma ServeShortens(s: Sys)
    requires Enabled(s, Serve(true, 0, 0))
    ensures var s' := Step(s, Serve(true, 0, 0));
            && |s'.w.toSim| < |s.w.toSim| && |s.w.async| <= |s'.w.async|
            && s'.call == s.call && s'.shared == s.shared
  {
    ParsedIsShorter(s.w.toSim);
    hide Parse, After, EncodeAll, AccessOk, Tlp.ServedReply, Tlp.ServedMessage;
  }

  lemma ServeStaysEnabled(s: Sys, c: Tlp.Config)
    requires Agree(s, c) && Tlp.Enabled(c.w, Tlp.Serve(0, 0))
    ensures Enabled(s, Serve(true, 0, 0))
  {
    hide Parse, AccessOk;
  }

  lemma {:induction false} ServeOne(d0: Regs, es: seq<Event>)
    requires RegsOk(d0) && Possible(d0, es) && Separate(d0, es) && SysAfter(d0, es).w.toSim != []
    ensures var s, all := SysAfter(d0, es), es + [Serve(true, 0, 0)];
            && Possible(d0, all) && Separate(d0, all)
            && var s' := SysAfter(d0, all);
            && |s'.w.toSim| < |s.w.toSim| && |s.w.async| <= |s'.w.async|
            && s'.call == s.call && s'.shared == s.shared
  {
    var s := SysAfter(d0, es);
    var c := SeparateRunsProject(d0, es);
    assert c.w.toSim == s.w.toSim;
    hide Possible, SysAfter, Separate, Projected, Tlp.Reaches, Agree, Enabled, Tlp.Enabled, Step;
    EndToEnd.StreamsStayReadable(d0, Projected(es), c, 0);
    ServeStaysEnabled(s, c);
    Go(d0, es, Serve(true, 0, 0));
    StillSeparate(d0, es, Serve(true, 0, 0));
    ServeShortens(s);
  }

  lemma ParsedIsShorter(stream: seq<Byte>)
    requires Parse(ToSim, stream).Some?
    ensures |Parse(ToSim, stream).value.1| < |stream|
  {
  }

  lemma {:induction false} StillSeparate(d0: Regs, es: seq<Event>, e: Event)
    requires Possible(d0, es) && Separate(d0, es) && !MainUses(e) && Possible(d0, es + [e])
    ensures Separate(d0, es + [e])
  {
    assert (es + [e])[..|es|] == es;
  }

  /** The simulator catches up with all requests. */
  lemma {:induction false} ServeAll(d0: Regs, es: seq<Event>) returns (serves: seq<Event>)
    requires RegsOk(d0) && Possible(d0, es) && Separate(d0, es)
    ensures OnlyServes(serves)
    ensures var s, all := SysAfter(d0, es), es + serves;
            && Possible(d0, all) && Separate(d0, all)
            && var s' := SysAfter(d0, all);
            && s'.w.toSim == [] && |s.w.async| <= |s'.w.async| && s'.call == s.call && s'.shared == s.shared
    decreases |SysAfter(d0, es).w.toSim|
  {
    hide Possible, SysAfter, Separate;
    if SysAfter(d0, es).w.toSim == [] {
      serves := [];
      assert es + [] == es;
    } else {
      ServeOne(d0, es);
      var rest := ServeAll(d0, es + [Serve(true, 0, 0)]);
      serves := [Serve(true, 0, 0)] + rest;
      JoinRuns(es, [Serve(true, 0, 0)], rest);
    }
  }

  /** The request goes out on main and the time limit is set there. */
  lemma SentAndArmed(s: Sys, a: Access, pad: Byte)
    requires s.call.Idle? && OnMain(s) && AccessOk(a) && !a.write && s.limited == {} && s.w.toSim == []
    ensures Enabled(s, Issue(a, pad)) && Enabled(Step(s, Issue(a, pad)), Arm)
    ensures var s', p := Step(Step(s, Issue(a, pad)), Arm), RequestPacket(a, s.w.tran, pad);
            && s'.call.Armed? && s'.limited == {Bridge.MainChannel} && s'.held == s.held && s'.stray == s.stray
            && s'.w == s.w.(tran := s'.w.tran, toSim := Encode(p) + [], waiting := Some(p.h))
            && s'.shared.channel == s.shared.channel && s'.shared.listener == s.shared.listener
  {
    hide EncodeHeader, AccessOk;
    var p := Encode(RequestPacket(a, s.w.tran, pad));
    assert [] + p == p + [];
  }

  lemma ListensAstray(s: Sys)
    requires s.call.Armed? && !OnMain(s)
    ensures Enabled(s, Listen)
    ensures Step(s, Listen) ==
            s.(call := Reading(Bridge.AsyncChannel), shared := s.shared.(used := s.shared.used + [Bridge.AsyncChannel]))
  {
  }

  lemma ServedOnMain(s: Sys, a: Access, tag: Byte, pad: Byte)
    requires RegsOk(s.w.dev) && AccessOk(a) && !a.write && s.w.toSim == Encode(RequestPacket(a, tag, pad)) + []
    ensures Enabled(s, Serve(true, pad, pad))
    ensures Step(s, Serve(true, pad, pad)) ==
            s.(w := s.w.(toSim := [], toBridge := s.w.toBridge + Encode(AckOf(a, tag, s.w.dev, pad))))
  {
    ReadServed(a, tag, pad, s.w.dev);
    hide Parse, Encode, EncodeAll, After, AckOf, Servable, AccessOk, Tlp.ServedReply, Tlp.ServedMessage;
    assert s.w.async + [] == s.w.async;
  }

  /** A receive that waits on the async socket, without a time limit there, with nothing to come. */
  predicate Stuck(s: Sys) {
    && s.call == Reading(Bridge.AsyncChannel) && s.limited == {Bridge.MainChannel}
    && s.w.toSim == s.w.async == s.stray == [] && s.shared.listener.Polling?
  }

  lemma StuckCall(s: Sys)
    requires Stuck(s)
    ensures s.call == Reading(Bridge.AsyncChannel)
  {
  }

  lemma NothingEnabled(s: Sys, e: Event)
    requires Stuck(s)
    ensures !Enabled(s, e)
  {
    NothingStray([]);
  }

  function ListenedTooLate(a: Access, pad: Byte): seq<Event> {
    [Issue(a, pad)] + [Arm] + [Select] + [Listen]
  }

  /** From a separate run with nothing left to serve: one read whose receive is begun in the span. */
  lemma {:induction false} ListenTooLate(d0: Regs, es: seq<Event>, a: Access, pad: Byte)
    requires Possible(d0, es) && AccessOk(a) && !a.write
    requires var s := SysAfter(d0, es); SpanCanOpen(s) && OnMain(s) && s.limited == {} && s.w.toSim == []
    ensures var s, all := SysAfter(d0, es), es + ListenedTooLate(a, pad);
            && Possible(d0, all)
            && var s', p := SysAfter(d0, all), RequestPacket(a, s.w.tran, pad);
            && s'.call == Reading(Bridge.AsyncChannel) && s'.limited == {Bridge.MainChannel}
            && s'.w == s.w.(tran := s'.w.tran, toSim := Encode(p) + [], waiting := Some(p.h))
            && s'.held == s.held && s'.stray == s.stray && s'.shared.listener.Receiving?
  {
    var s := SysAfter(d0, es);
    hide Possible, SysAfter, Enabled, Step, Encode, AccessOk;
    SentAndArmed(s, a, pad);
    Go(d0, es, Issue(a, pad));
    Go(d0, es + [Issue(a, pad)], Arm);
    var es2 := es + [Issue(a, pad)] + [Arm];
    Selects(SysAfter(d0, es2));
    Go(d0, es2, Select);
    ListensAstray(SysAfter(d0, es2 + [Select]));
    Go(d0, es2 + [Select], Listen);
    JoinRuns(es, [Issue(a, pad)], [Arm]);
    JoinRuns(es, [Issue(a, pad)] + [Arm], [Select]);
    JoinRuns(es, [Issue(a, pad)] + [Arm] + [Select], [Listen]);
  }

  lemma Unread(s: Sys, a: Access, tag: Byte, pad: Byte)
    requires RegsOk(s.w.dev) && AccessOk(a) && !a.write && s.w.toSim == Encode(RequestPacket(a, tag, pad)) + []
    requires s.call == Reading(Bridge.AsyncChannel) && s.limited == {Bridge.MainChannel}
    requires s.w.async == s.stray == [] && s.shared.listener.Polling? && OnMain(s)
    ensures Enabled(s, Serve(true, pad, pad))
    ensures var s' := Step(s, Serve(true, pad, pad));
            && Stuck(s') && OnMain(s') && s'.w.waiting == s.w.waiting
            && s'.w.toBridge == s.w.toBridge + Encode(AckOf(a, tag, s.w.dev, pad))
  {
    ServedOnMain(s, a, tag, pad);
    hide Enabled, Step, Encode, AckOf;
  }

  lemma JustOneServe(pad: Byte)
    ensures NoMainUse([Serve(true, pad, pad)])
  {
  }

  /** What happens after that: the listener hears its messages and puts the selector back, the simulator
      answers on main, and nobody reads the answer. */
  lemma {:induction false} AnsweredUnread(d0: Regs, es: seq<Event>, msgs: seq<Packet>, a: Access, tag: Byte, pad: Byte)
    returns (more: seq<Event>)
    requires Possible(d0, es) && AccessOk(a) && !a.write && Tlp.MessagesOk(msgs) && msgs != []
    requires var s := SysAfter(d0, es);
             && RegsOk(s.w.dev) && s.w.toSim == Encode(RequestPacket(a, tag, pad)) + []
             && s.call == Reading(Bridge.AsyncChannel) && s.limited == {Bridge.MainChannel}
             && s.w.async == EncodeAll(msgs) && s.held == [] && s.stray == [] && s.shared.listener.Receiving?
    ensures NoMainUse(more)
    ensures Possible(d0, es + more)
    ensures var s, s' := SysAfter(d0, es), SysAfter(d0, es + more);
            && Stuck(s') && OnMain(s') && s'.w.waiting == s.w.waiting
            && s'.w.toBridge == s.w.toBridge + Encode(AckOf(a, tag, s.w.dev, pad))
  {
    var s := SysAfter(d0, es);
    assert s.w.async == EncodeAll(msgs) + [];
    hide Possible, SysAfter, Enabled, Step, Encode, EncodeAll, AckOf, AccessOk, RegsOk, Tlp.MessagesOk, Heard, Stuck,
         OnMain, OnlyListener, NoMainUse;
    JustOneServe(pad);
    var heard := HearRest(d0, es, msgs, []);
    var s1 := SysAfter(d0, es + heard);
    HeardLeaves(s, s1, [], |msgs|);
    Unread(s1, a, tag, pad);
    Go(d0, es + heard, Serve(true, pad, pad));
    more := heard + [Serve(true, pad, pad)];
    JoinRuns(es, heard, [Serve(true, pad, pad)]);
    NoMainUseJoin(heard, [Serve(true, pad, pad)]);
  }

  /** One receive begun in the span can stop the system for good. From any separate run that stands between
      two calls with an interrupt on its way, and for any read: the simulator catches up, the read is sent
      and its time limit set on main, the listener selects, receive looks the selector up. Then the
      listener delivers every interrupt and restores the selector, the simulator answers, and nothing can
      happen any more: the answer lies unread on main, and the call waits on async without a limit. */
  lemma {:induction false} ReceiveInTheSpan(d0: Regs, es: seq<Event>, a: Access, pad: Byte)
    returns (serves: seq<Event>, more: seq<Event>, ack: Packet, left: seq<Byte>)
    requires RegsOk(d0) && Possible(d0, es) && Separate(d0, es) && SpanCanOpen(SysAfter(d0, es))
    requires AccessOk(a) && !a.write
    ensures OnlyServes(serves)
    ensures NoMainUse(more)
    ensures var all := es + serves + ListenedTooLate(a, pad) + more;
            && Possible(d0, all)
            && var s' := SysAfter(d0, all);
            && (forall e :: !Enabled(s', e))
            && OnMain(s') && s'.call == Reading(Bridge.AsyncChannel) && s'.w.waiting.Some?
            && s'.w.toBridge == left + Encode(ack) && Tlp.Matches(ack.h, s'.w.waiting.value)
  {
    serves := ServeAll(d0, es);
    var es1 := es + serves;
    var msgs := Messages(d0, es1);
    var s := SysAfter(d0, es1);
    assert msgs != [] && OnMain(s) && s.limited == {} && s.held == [];
    hide Possible, SysAfter, Separate, Enabled, Encode, EncodeAll, AckOf, AccessOk, RegsOk, ListenerOk, CallOk,
         Tlp.Matches;
    ListenTooLate(d0, es1, a, pad);
    var read := ListenedTooLate(a, pad);
    hide ListenedTooLate, OnlyServes, Stuck, OnMain, SpanCanOpen, Tlp.MessagesOk, NoMainUse;
    more := AnsweredUnread(d0, es1 + read, msgs, a, s.w.tran, pad);
    var s' := SysAfter(d0, es1 + read + more);
    ack, left := AckOf(a, s.w.tran, s.w.dev, pad), s.w.toBridge;
    AckWellFormed(a, s.w.tran, s.w.dev, pad);
    StuckCall(s');
    forall e ensures !Enabled(s', e) {
      NothingEnabled(s', e);
    }
  }

  /** The header read from the async socket. */
  lemma TakesItsHeader(s: Sys, pad: Byte, rest: seq<Byte>)
    requires s.call == Reading(Bridge.AsyncChannel) && s.w.async == Encode(InterruptMessage(pad)) + rest
    ensures Enabled(s, TakeHeader)
    ensures Step(s, TakeHeader) ==
            s.(w := s.w.(async := [0, 0, 0, 0] + rest), call := Headed(InterruptMessage(pad).h))
  {
    var m := InterruptMessage(pad);
    DecodeEncodeHeader(m.h);
    var head := EncodeHeader(m.h);
    hide EncodeHeader, DecodeHeader;
    assert s.w.async == head + ([0, 0, 0, 0] + rest);
    assert s.w.async[..HEADER_SIZE] == head && s.w.async[HEADER_SIZE..] == [0, 0, 0, 0] + rest;
  }

  /** The payload is looked for where the selector points, and taken from there. */
  lemma FillsThenAnswers(s: Sys, h: Header)
    requires s.call == Headed(h) && h.count > 0 && s.w.waiting.Some?
    requires var on := s.shared.channel; h.count <= |Stream(s.w, on)|
    ensures Enabled(s, Fill) && Enabled(Step(s, Fill), Answer)
    ensures var s', on, n := Step(Step(s, Fill), Answer), s.shared.channel, h.count;
            && s'.w == Drained(s.w, on, n).(waiting := None)
            && s'.ended == s.ended + [Ended(false, Tlp.Matches(h, s.w.waiting.value), Stream(s.w, on)[..n])]
  {
  }

  /** A receive that waits on async and meets an interrupt message takes its header for the answer's and its
      payload from wherever the selector points then: the read fails, the interrupt is never delivered, and
      if the listener has put the selector back, four bytes are torn out of the main stream and four
      left at the head of the async one. */
  lemma TornReceive(s: Sys, pad: Byte, rest: seq<Byte>)
    requires s.call == Reading(Bridge.AsyncChannel) && s.w.waiting.Some?
    requires s.w.async == Encode(InterruptMessage(pad)) + rest
    requires OnMain(s) ==> |s.w.toBridge| >= 4
    ensures Enabled(s, TakeHeader) && Enabled(Step(s, TakeHeader), Fill)
    ensures Enabled(Step(Step(s, TakeHeader), Fill), Answer)
    ensures var s' := Step(Step(Step(s, TakeHeader), Fill), Answer);
            && s'.w.vectors == s.w.vectors && s'.w.waiting.None?
            && (if OnMain(s) then
                  && s'.w.toBridge == s.w.toBridge[4..] && s'.w.async == [0, 0, 0, 0] + rest
                  && s'.ended == s.ended + [Ended(false, false, s.w.toBridge[..4])]
                else
                  && s'.w.toBridge == s.w.toBridge && s'.w.async == rest
                  && s'.ended == s.ended + [Ended(false, false, [0, 0, 0, 0])])
  {
    hide Step, Enabled, Encode;
    TakesItsHeader(s, pad, rest);
    var zeros: seq<Byte> := [0, 0, 0, 0];
    assert (zeros + rest)[..4] == zeros && (zeros + rest)[4..] == rest;
    FillsThenAnswers(Step(s, TakeHeader), InterruptMessage(pad).h);
  }

  // ---- Both can happen ----

  const ASK_FOR_INTERRUPT := Access(true, 0, 0, 4, [0xBE, 0xBA, 0xDC, 0xAC])

  lemma AsksForInterrupt()
    ensures AccessOk(ASK_FOR_INTERRUPT) && RaisesInterrupt(ASK_FOR_INTERRUPT)
  {
    var s: seq<Byte> := [0xBE, 0xBA, 0xDC, 0xAC];
    assert s[1..] == [0xBA, 0xDC, 0xAC] && s[1..][1..] == [0xDC, 0xAC] && s[1..][1..][1..] == [0xAC];
    assert FromLe(s[1..][1..]) == 0xACDC;
    assert ASK_FOR_INTERRUPT.data[0..4] == s;
  }

  lemma AskIssued(s: Sys, pad: Byte)
    requires s.call.Idle? && s.w.toSim == [] && OnMain(s)
    ensures Enabled(s, Issue(ASK_FOR_INTERRUPT, pad)) && AccessOk(ASK_FOR_INTERRUPT)
    ensures var s', p := Step(s, Issue(ASK_FOR_INTERRUPT, pad)), RequestPacket(ASK_FOR_INTERRUPT, s.w.tran, pad);
            && s'.w == s.w.(tran := s'.w.tran, toSim := Encode(p) + [], waiting := None) && s'.call == s.call
            && s'.shared.listener == s.shared.listener
  {
    AsksForInterrupt();
    var p := RequestPacket(ASK_FOR_INTERRUPT, s.w.tran, pad);
    hide Encode, AccessOk;
    assert [] + Encode(p) == Encode(p) + [];
  }

  lemma AskServed(s: Sys, tag: Byte, pad: Byte)
    requires RegsOk(s.w.dev) && AccessOk(ASK_FOR_INTERRUPT)
    requires s.w.toSim == Encode(RequestPacket(ASK_FOR_INTERRUPT, tag, pad)) + []
    ensures Enabled(s, Serve(true, pad, pad))
    ensures var s' := Step(s, Serve(true, pad, pad));
            s'.w.async != [] && s'.call == s.call && s'.shared == s.shared
  {
    AsksForInterrupt();
    ParseEncode(ToSim, RequestPacket(ASK_FOR_INTERRUPT, tag, pad), []);
    PacketNamesAccess(ASK_FOR_INTERRUPT, tag, pad);
    Tlp.EncodeOne(InterruptMessage(pad));
    hide Parse, EncodeHeader, RaisesInterrupt, AccessOk, After;
  }

  /** Such a moment is two events away from the start. */
  lemma {:induction false} InterruptCanWait(d0: Regs, pad: Byte) returns (es: seq<Event>)
    requires RegsOk(d0)
    ensures Possible(d0, es) && Separate(d0, es) && SpanCanOpen(SysAfter(d0, es))
  {
    var s0, ask := AtStart(d0), Issue(ASK_FOR_INTERRUPT, pad);
    assert SysAfter(d0, []) == s0 && Separate(d0, []) && Races(d0, []) == [];
    AskIssued(s0, pad);
    Go(d0, [], ask);
    assert ([] + [ask])[..0] == [];
    assert Separate(d0, [] + [ask]);
    var s1 := SysAfter(d0, [] + [ask]);
    hide Enabled, Step, Encode, Possible, SysAfter, Separate;
    AskServed(s1, s0.w.tran, pad);
    Go(d0, [] + [ask], Serve(true, pad, pad));
    StillSeparate(d0, [] + [ask], Serve(true, pad, pad));
    es := [] + [ask] + [Serve(true, pad, pad)];
  }

  /** So from every start, for every read, some run with that read ends with nothing enabled. */
  lemma {:induction false} SharedSelectorDeadlocks(d0: Regs, a: Access, pad: Byte) returns (es: seq<Event>)
    requires RegsOk(d0) && AccessOk(a) && !a.write
    ensures Possible(d0, es) && Issue(a, pad) in es
    ensures SysAfter(d0, es).w.waiting.Some? && forall e :: !Enabled(SysAfter(d0, es), e)
  {
    hide Possible, SysAfter, Separate, Enabled, AccessOk, RegsOk;
    var start := InterruptCanWait(d0, pad);
    var serves, more, ack, left := ReceiveInTheSpan(d0, start, a, pad);
    es := start + serves + ListenedTooLate(a, pad) + more;
    assert Issue(a, pad) in ListenedTooLate(a, pad);
  }
}
