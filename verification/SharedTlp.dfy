/** The system of SoftTlp with the one thing its threads share written out: the channel selector. The
    listener sets it; the main thread looks it up once for a send, once for each setTimeout around a
    receive, and once for each of the two recv loops inside the receive, for header and for payload
    (common/src/socket_channel.cpp, src/bridge/pcie_cosim_bridge.cpp). What it looked up it keeps. */
module SharedTlp {
  import opened Protocol
  import opened Device
  import Tlp = SoftTlp
  import EndToEnd
  import Bridge

  /** Where the main thread is in pcie_bridge. */
  datatype Call =
    | Idle
    | Sent                               // a read request is out
    | Armed                              // the time limit is set
    | Reading(on: Bridge.Channel)        // in recv for the header, or about to be, on the socket it looked up
    | Headed(h: Header)                  // it has the header
    | Filling(h: Header, on: Bridge.Channel) // in recv for the payload, on the socket it looked up then
    | Returned                           // receive has returned

  /** How a read's receive ended. */
  datatype Ended = Ended(timedOut: bool, ok: bool, data: seq<Byte>)

  /** `stray` are bytes sent to the simulator on the async socket; `held` is the vector of a message the
      listener has taken and not yet delivered; `limited` are the channels with a receive time limit;
      `issued` and `ended` are the accesses made and the reads that have returned. */
  datatype Sys = Sys(w: Tlp.Wires, stray: seq<Byte>, shared: Bridge.Shared, held: seq<nat>,
                     call: Call, limited: set<Bridge.Channel>, issued: seq<Access>, ended: seq<Ended>)

  datatype Event =
    | Issue(a: Access, pad: Byte) // the send, on socket[channel]
    | Arm                         // setTimeout(channel, MAX_WAIT_TIME)
    | Listen                      // receive looks up socket[channel] for the header
    | TakeHeader                  // recv has the header
    | Fill                        // receive looks up socket[channel] for the payload
    | Answer                      // receive returns a packet
    | GiveUp                      // the time limit passes before the first byte
    | Disarm                      // setTimeout(channel, BLOCK)
    | Serve(onMain: bool, ackPad: Byte, msgPad: Byte) // one packet through the simulator, from either socket
    | Select                      // the listener switches the selector to async
    | Take                        // its receive returns a packet
    | Restore                     // it switches back and delivers the interrupt

  /** The listener's buffer; what a longer payload would do to it is not modelled. */
  const LISTENER_SIZE := 256

  predicate OnMain(s: Sys) {
    s.shared.channel.MainChannel?
  }

  /** The stream a socket of the bridge reads, and the wires with `n` bytes of it read. */
  function Stream(w: Tlp.Wires, on: Bridge.Channel): seq<Byte> {
    if on.MainChannel? then w.toBridge else w.async
  }

  function Drained(w: Tlp.Wires, on: Bridge.Channel, n: nat): Tlp.Wires
    requires n <= |Stream(w, on)|
  {
    if on.MainChannel? then w.(toBridge := w.toBridge[n..]) else w.(async := w.async[n..])
  }

  /** The simulator would take its next packet from this stream. */
  predicate Servable(stream: seq<Byte>) {
    && Parse(ToSim, stream).Some?
    && IsMemory(Parse(ToSim, stream).value.0.h.kind)
    && AccessOk(AccessOf(Parse(ToSim, stream).value.0))
  }

  /** All that receive still needs is there. */
  predicate PayloadThere(s: Sys) {
    match s.call
    case Headed(h) => h.count == 0
    case Filling(h, on) => h.count <= |Stream(s.w, on)|
    case _ => false
  }

  predicate Enabled(s: Sys, e: Event) {
    match e
    case Issue(a, _) => s.call.Idle? && AccessOk(a)
    case Arm => s.call.Sent?
    case Listen => s.call.Armed?
    case TakeHeader => s.call.Reading? && HEADER_SIZE <= |Stream(s.w, s.call.on)|
    case Fill => s.call.Headed? && s.call.h.count > 0
    case Answer => s.w.waiting.Some? && PayloadThere(s)
    case GiveUp => s.call.Reading? && s.call.on in s.limited
    case Disarm => s.call.Returned?
    case Serve(onMain, _, _) => RegsOk(s.w.dev) && Servable(if onMain then s.w.toSim else s.stray)
    case Select => s.shared.listener.Polling? && s.w.async != []
    case Take => s.shared.listener.Receiving? && Parse(ToBridge, s.w.async).Some?
                 && 4 <= |Parse(ToBridge, s.w.async).value.0.payload| <= LISTENER_SIZE
    case Restore => s.shared.listener.Holding?
  }

  /** The main thread looks the selector up. */
  predicate MainUses(e: Event) {
    e.Issue? || e.Arm? || e.Listen? || e.Fill? || e.Disarm?
  }

  /** What the event is to the selector, if anything. */
  function RacesOf(s: Sys, e: Event): (r: seq<Bridge.Race>)
    requires Enabled(s, e)
    ensures |r| <= 1
  {
    if MainUses(e) then [Bridge.Use]
    else match e
      case Select => [Bridge.Select]
      case Take => [Bridge.Take(Parse(ToBridge, s.w.async).value.0.h.kind)]
      case Restore => [Bridge.Restore]
      case _ => []
  }

  function Issued(s: Sys, a: Access, pad: Byte): Sys
    requires AccessOk(a)
  {
    var p := RequestPacket(a, s.w.tran, pad);
    var w, s' := Tlp.Issued(s.w, p, a.write), s.(call := if a.write then Idle else Sent, issued := s.issued + [a]);
    if OnMain(s) then s'.(w := w) else s'.(w := w.(toSim := s.w.toSim), stray := s.stray + Encode(p))
  }

  function Answered(s: Sys): Sys
    requires Enabled(s, Answer)
  {
    var h, request := s.call.h, s.w.waiting.value;
    var payload := if s.call.Filling? then Stream(s.w, s.call.on)[..h.count] else [];
    var w := if s.call.Filling? then Drained(s.w, s.call.on, h.count) else s.w;
    s.(w := w.(waiting := None), call := Returned,
    ended := s.ended + [Ended(false, Tlp.Matches(h, request), payload)])
  }

  function Served(s: Sys, onMain: bool, ackPad: Byte, msgPad: Byte): Sys
    requires Enabled(s, Serve(onMain, ackPad, msgPad))
  {
    var (p, rest) := Parse(ToSim, if onMain then s.w.toSim else s.stray).value;
    if onMain then s.(w := Tlp.Served(s.w, p, AccessOf(p), rest, ackPad, msgPad))
    else
      var w := Tlp.Served(s.w, p, AccessOf(p), s.w.toSim, ackPad, msgPad);
      var reply := EncodeAll(Tlp.ServedReply(p, AccessOf(p), s.w.dev, ackPad));
      s.(w := w.(toBridge := s.w.toBridge, async := w.async + reply), stray := rest)
  }

  /** The event apart from the selector and the listener's place. */
  function Moved(s: Sys, e: Event): Sys
    requires Enabled(s, e)
  {
    match e
    case Issue(a, pad) => Issued(s, a, pad)
    case Arm => s.(call := Armed, limited := s.limited + {s.shared.channel})
    case Listen => s.(call := Reading(s.shared.channel))
    case TakeHeader =>
      var on := s.call.on;
      s.(w := Drained(s.w, on, HEADER_SIZE), call := Headed(DecodeHeader(Stream(s.w, on)[..HEADER_SIZE])))
    case Fill => s.(call := Filling(s.call.h, s.shared.channel))
    case Answer => Answered(s)
    case GiveUp =>
      s.(w := s.w.(waiting := None), call := Returned, ended := s.ended + [Ended(true, false, [])])
    case Disarm => s.(call := Idle, limited := s.limited - {s.shared.channel})
    case Serve(onMain, ackPad, msgPad) => Served(s, onMain, ackPad, msgPad)
    case Select => s
    case Take =>
      var (p, rest) := Parse(ToBridge, s.w.async).value;
      s.(w := s.w.(async := rest), held := if p.h.kind == MSG then [FromLe(p.payload[..4])] else [])
    case Restore => s.(w := s.w.(vectors := s.w.vectors + s.held), held := [])
  }

  function Step(s: Sys, e: Event): Sys
    requires Enabled(s, e)
  {
    var races := RacesOf(s, e);
    Moved(s, e).(shared := if races == [] then s.shared else Bridge.Do(s.shared, races[0]))
  }

  function AtStart(d0: Regs): Sys {
    Sys(Tlp.Start(d0), [], Bridge.AT_REST, [], Idle, {}, [], [])
  }

  predicate Possible(d0: Regs, es: seq<Event>)
    decreases |es|, 0
  {
    es == [] ||
    var n := |es| - 1;
    Possible(d0, es[..n]) && Enabled(SysAfter(d0, es[..n]), es[n])
  }

  function SysAfter(d0: Regs, es: seq<Event>): Sys
    requires Possible(d0, es)
    decreases |es|, 1
  {
    if es == [] then AtStart(d0) else Step(SysAfter(d0, es[..|es| - 1]), es[|es| - 1])
  }

  lemma {:induction false} Go(d0: Regs, es: seq<Event>, e: Event)
    requires Possible(d0, es) && Enabled(SysAfter(d0, es), e)
    ensures Possible(d0, es + [e]) && SysAfter(d0, es + [e]) == Step(SysAfter(d0, es), e)
  {
    assert (es + [e])[..|es|] == es;
  }

  // ---- The selector ----

  /** The run as the selector sees it. */
  function Races(d0: Regs, es: seq<Event>): seq<Bridge.Race>
    requires Possible(d0, es)
  {
    if es == [] then []
    else
      var n := |es| - 1;
      Races(d0, es[..n]) + RacesOf(SysAfter(d0, es[..n]), es[n])
  }

  lemma {:induction false} RaceSnoc(races: seq<Bridge.Race>, r: Bridge.Race)
    requires Bridge.Possible(races) && Bridge.CanDo(Bridge.SharedAfter(races), r)
    ensures Bridge.Possible(races + [r])
    ensures Bridge.SharedAfter(races + [r]) == Bridge.Do(Bridge.SharedAfter(races), r)
  {
    assert (races + [r])[..|races|] == races;
  }

  lemma EventCanRace(s: Sys, e: Event)
    requires Enabled(s, e)
    ensures forall r :: r in RacesOf(s, e) ==> Bridge.CanDo(s.shared, r)
  {
  }

  lemma {:induction false} SelectorFollowsRaces(d0: Regs, es: seq<Event>)
    requires Possible(d0, es)
    ensures Bridge.Possible(Races(d0, es)) && SysAfter(d0, es).shared == Bridge.SharedAfter(Races(d0, es))
  {
    if es != [] {
      var n := |es| - 1;
      SelectorFollowsRaces(d0, es[..n]);
      var s, races := SysAfter(d0, es[..n]), Races(d0, es[..n]);
      EventCanRace(s, es[n]);
      var more := RacesOf(s, es[n]);
      hide Bridge.SharedAfter, Bridge.Possible;
      if more == [] {
        assert races + more == races;
      } else {
        assert more == [more[0]];
        RaceSnoc(races, more[0]);
      }
    }
  }

  /** A time limit is set and lifted where the selector points at that moment, and nothing else touches
      one: a limit set on one channel outlives a Disarm that finds the other. */
  lemma LimitsFollowSelector(s: Sys, e: Event, on: Bridge.Channel)
    requires Enabled(s, e)
    ensures on in Step(s, e).limited <==>
              if on == s.shared.channel && (e.Arm? || e.Disarm?) then e.Arm? else on in s.limited
  {
    hide Parse, Encode, After, EncodeAll;
  }

  /** The main thread never looks the selector up between a Select and the next Restore. A receive may
      be in progress then: it goes by what it looked up before. */
  predicate Separate(d0: Regs, es: seq<Event>)
    requires Possible(d0, es)
  {
    es == [] ||
    var n := |es| - 1;
    Separate(d0, es[..n]) && (MainUses(es[n]) ==> !Bridge.Exposed(Races(d0, es[..n])))
  }

  /** A separate use finds the main channel. */
  lemma {:induction false} SeparateUseOnMain(d0: Regs, es: seq<Event>)
    requires Possible(d0, es) && !Bridge.Exposed(Races(d0, es))
    ensures OnMain(SysAfter(d0, es))
  {
    SelectorFollowsRaces(d0, es);
    Bridge.MainTrafficIffNotExposed(Races(d0, es));
  }

  // ---- Separate runs are runs of SoftTlp ----

  /** The events SoftTlp does not see: it sends, answers, serves and hears in one move each. */
  predicate Silent(e: Event) {
    e.Arm? || e.Listen? || e.TakeHeader? || e.Fill? || e.Disarm? || e.Select? || e.Restore?
  }

  /** The system's move for an event that is one; the listener hears when it takes. */
  function MoveOf(e: Event): Tlp.Event
    requires !Silent(e)
  {
    match e
    case Issue(a, pad) => Tlp.Issue(a, pad)
    case Answer => Tlp.Answer
    case GiveUp => Tlp.GiveUp
    case Serve(_, ackPad, msgPad) => Tlp.Serve(ackPad, msgPad)
    case Take => Tlp.Hear
  }

  function Projected(es: seq<Event>): seq<Tlp.Event> {
    if es == [] then []
    else
      var e := es[|es| - 1];
      Projected(es[..|es| - 1]) + if Silent(e) then [] else [MoveOf(e)]
  }

  /** The header a receive in progress has already read. */
  function HeaderRead(call: Call): seq<Byte> {
    if call.Headed? || call.Filling? then EncodeHeader(call.h) else []
  }

  /** A call on the main channel: a time limit is set exactly from Arm to Disarm, and only there. */
  predicate CallOk(s: Sys) {
    && (s.w.waiting.Some? <==> !s.call.Idle? && !s.call.Returned?)
    && (s.call.Reading? || s.call.Filling? ==> s.call.on.MainChannel?)
    && (s.call.Filling? ==> s.call.h.count > 0)
    && s.limited == if s.call.Idle? || s.call.Sent? then {} else {Bridge.MainChannel}
  }

  /** The listener is not gone, and the selector is off the main channel exactly while it is busy. */
  predicate ListenerOk(s: Sys) {
    && !s.shared.listener.Left? && (s.shared.listener.Polling? <==> OnMain(s))
    && (s.held != [] ==> s.shared.listener.Holding?)
  }

  predicate EndedAlike(ended: seq<Ended>, calls: seq<Tlp.Return>) {
    && |ended| == |calls|
    && forall i :: 0 <= i < |ended| ==> ended[i] == Ended(calls[i].timedOut, calls[i].ok, calls[i].data)
  }

  /** The bytes agree, counting a header already read as still there and a held interrupt as delivered,
      and every read so far has ended alike. */
  predicate WiresAgree(s: Sys, w: Tlp.Wires) {
    s.stray == [] && w == s.w.(toBridge := HeaderRead(s.call) + s.w.toBridge, vectors := s.w.vectors + s.held)
  }

  predicate Agree(s: Sys, c: Tlp.Config) {
    && CallOk(s) && ListenerOk(s) && WiresAgree(s, c.w)
    && s.issued == c.h.issued && EndedAlike(s.ended, c.h.ended)
  }

  function Next(c: Tlp.Config, e: Tlp.Event): Tlp.Config
    requires Tlp.Enabled(c.w, e)
  {
    Tlp.Config(Tlp.Step(c.w, e), Tlp.Record(c.h, c.w, e))
  }

  lemma HeaderStays(s: Sys, c: Tlp.Config)
    requires Agree(s, c) && Enabled(s, TakeHeader)
    ensures Agree(Step(s, TakeHeader), c)
  {
    var bytes := s.w.toBridge;
    EncodeDecodeHeader(bytes[..HEADER_SIZE]);
    assert bytes == bytes[..HEADER_SIZE] + bytes[HEADER_SIZE..];
    hide EncodeHeader, DecodeHeader;
  }

  lemma SilentKeeps(s: Sys, e: Event, c: Tlp.Config)
    requires Agree(s, c) && Enabled(s, e) && Silent(e) && (MainUses(e) ==> OnMain(s))
    ensures Agree(Step(s, e), c)
  {
    if e.TakeHeader? {
      HeaderStays(s, c);
    }
    hide EncodeHeader, DecodeHeader;
  }

  /** Header and payload, read one after the other, are the packet that parses. */
  lemma HeaderThenPayload(h: Header, bytes: seq<Byte>)
    ensures Parse(ToBridge, EncodeHeader(h) + bytes).Some? <==> h.count <= |bytes|
    ensures h.count <= |bytes| ==>
              Parse(ToBridge, EncodeHeader(h) + bytes) == Some((Packet(h, bytes[..h.count]), bytes[h.count..]))
  {
    DecodeEncodeHeader(h);
    var s := EncodeHeader(h) + bytes;
    assert s[..HEADER_SIZE] == EncodeHeader(h);
    hide EncodeHeader, DecodeHeader;
    if h.count <= |bytes| {
      assert s[HEADER_SIZE..HEADER_SIZE + h.count] == bytes[..h.count];
      assert s[HEADER_SIZE + h.count..] == bytes[h.count..];
    }
  }

  /** How much of what is left of its stream a receive still takes. */
  function Missing(call: Call): nat {
    if call.Filling? then call.h.count else 0
  }

  lemma AnswerParses(s: Sys, w: Tlp.Wires)
    requires CallOk(s) && WiresAgree(s, w) && Enabled(s, Answer)
    ensures var n := Missing(s.call); var bytes := s.w.toBridge;
            && n <= |bytes| && Parse(ToBridge, w.toBridge) == Some((Packet(s.call.h, bytes[..n]), bytes[n..]))
  {
    HeaderThenPayload(s.call.h, s.w.toBridge);
    hide Parse, EncodeHeader;
  }

  lemma Answers(s: Sys)
    requires CallOk(s) && Enabled(s, Answer)
    ensures var s', n := Step(s, Answer), Missing(s.call);
            && n <= |s.w.toBridge| && s'.w == s.w.(waiting := None, toBridge := s.w.toBridge[n..])
            && s'.ended == s.ended + [Ended(false, Tlp.Matches(s.call.h, s.w.waiting.value), s.w.toBridge[..n])]
            && s' == s.(w := s'.w, call := Returned, ended := s'.ended)
  {
  }

  lemma AnswerWires(s: Sys, c: Tlp.Config)
    requires CallOk(s) && WiresAgree(s, c.w) && Enabled(s, Answer)
    ensures Tlp.Enabled(c.w, Tlp.Answer) && WiresAgree(Step(s, Answer), Tlp.Step(c.w, Tlp.Answer))
    ensures Parse(ToBridge, c.w.toBridge).value.0 == Packet(s.call.h, s.w.toBridge[..Missing(s.call)])
  {
    AnswerParses(s, c.w);
    Answers(s);
    hide Parse, EncodeHeader, Step, Enabled, Missing, CallOk;
    var rest := Step(s, Answer).w.toBridge;
    assert HeaderRead(Returned) + rest == rest;
  }

  lemma EndedMore(ended: seq<Ended>, calls: seq<Tlp.Return>, r: Tlp.Return)
    requires EndedAlike(ended, calls)
    ensures EndedAlike(ended + [Ended(r.timedOut, r.ok, r.data)], calls + [r])
  {
  }

  lemma AnswerEnds(s: Sys, c: Tlp.Config)
    requires Agree(s, c) && Enabled(s, Answer)
    ensures Tlp.Enabled(c.w, Tlp.Answer)
    ensures EndedAlike(Step(s, Answer).ended, Next(c, Tlp.Answer).h.ended)
  {
    AnswerWires(s, c);
    Answers(s);
    hide Step, Enabled;
    var p := Parse(ToBridge, c.w.toBridge).value.0;
    assert c.w.waiting == s.w.waiting;
    EndedMore(s.ended, c.h.ended, Tlp.TakenBy(c.h, p, c.w.waiting.value));
    hide Parse, EncodeHeader, WiresAgree, EndedAlike, ListenerOk;
  }

  lemma AnswerIsAnswer(s: Sys, c: Tlp.Config)
    requires Agree(s, c) && Enabled(s, Answer)
    ensures Tlp.Enabled(c.w, Tlp.Answer) && Agree(Step(s, Answer), Next(c, Tlp.Answer))
  {
    AnswerWires(s, c);
    AnswerEnds(s, c);
    Answers(s);
    hide Parse, EncodeHeader, WiresAgree, EndedAlike, Step, Enabled, Missing;
  }

  lemma IssueIsIssue(s: Sys, e: Event, c: Tlp.Config)
    requires Agree(s, c) && Enabled(s, e) && e.Issue? && OnMain(s)
    ensures Tlp.Enabled(c.w, MoveOf(e)) && Agree(Step(s, e), Next(c, MoveOf(e)))
  {
    hide Encode, AccessOk;
  }

  lemma GiveUpIsGiveUp(s: Sys, c: Tlp.Config)
    requires Agree(s, c) && Enabled(s, GiveUp)
    ensures Tlp.Enabled(c.w, Tlp.GiveUp) && Agree(Step(s, GiveUp), Next(c, Tlp.GiveUp))
  {
  }

  /** All the listener ever takes are interrupt messages. */
  lemma TakeIsHear(s: Sys, c: Tlp.Config)
    requires Agree(s, c) && Enabled(s, Take)
    requires Parse(ToBridge, c.w.async).Some? ==> Parse(ToBridge, c.w.async).value.0.h.kind == MSG
    ensures Tlp.Enabled(c.w, Tlp.Hear) && Agree(Step(s, Take), Next(c, Tlp.Hear))
  {
    hide Parse, FromLe, EncodeHeader;
  }

  lemma {:induction false} OnlyMessages(d0: Regs, es: seq<Tlp.Event>, c: Tlp.Config)
    requires RegsOk(d0) && Tlp.Reaches(d0, es, c)
    ensures Parse(ToBridge, c.w.async).Some? ==> Parse(ToBridge, c.w.async).value.0.h.kind == MSG
  {
    Tlp.RunsAreGood(d0, es, c);
    if c.w.async != [] {
      Tlp.NextMessage(c.h.messages, c.h.heard);
    }
  }

  lemma NothingStray(stream: seq<Byte>)
    requires stream == []
    ensures !Servable(stream)
  {
  }

  lemma ServableParses(stream: seq<Byte>)
    requires Servable(stream)
    ensures Parse(ToSim, stream).Some? && IsMemory(Parse(ToSim, stream).value.0.h.kind)
    ensures AccessOk(AccessOf(Parse(ToSim, stream).value.0))
  {
  }

  lemma ServeWires(s: Sys, e: Event, w: Tlp.Wires)
    requires WiresAgree(s, w) && e.Serve? && Enabled(s, e)
    ensures e.onMain && Tlp.Enabled(w, MoveOf(e)) && WiresAgree(Step(s, e), Tlp.Step(w, MoveOf(e)))
  {
    NothingStray(s.stray);
    hide Parse, AccessOk, After, EncodeAll, Servable, HeaderRead;
    assert e.onMain;
    ServableParses(s.w.toSim);
    var reply := EncodeAll(Tlp.ServedReply(Parse(ToSim, s.w.toSim).value.0,
                                           AccessOf(Parse(ToSim, s.w.toSim).value.0), s.w.dev, e.ackPad));
    JoinAssociates(HeaderRead(s.call), s.w.toBridge, reply);
  }

  lemma ServeIsServe(s: Sys, e: Event, c: Tlp.Config)
    requires Agree(s, c) && e.Serve? && Enabled(s, e)
    ensures Tlp.Enabled(c.w, MoveOf(e)) && Agree(Step(s, e), Next(c, MoveOf(e)))
  {
    ServeWires(s, e, c.w);
    hide Parse, AccessOk, WiresAgree, Servable, After, EncodeAll, EndedAlike;
  }

  /** An event of a separate run is the system's move, or nothing to it. */
  lemma {:induction false} ProjectOne(d0: Regs, es: seq<Tlp.Event>, b: Tlp.Config, s: Sys, e: Event)
    returns (c: Tlp.Config)
    requires RegsOk(d0) && Tlp.Reaches(d0, es, b) && Agree(s, b) && Enabled(s, e) && (MainUses(e) ==> OnMain(s))
    ensures Agree(Step(s, e), c)
    ensures Tlp.Reaches(d0, es + (if Silent(e) then [] else [MoveOf(e)]), c)
  {
    if Silent(e) {
      SilentKeeps(s, e, b);
      c := b;
      assert es + [] == es;
    } else {
      match e {
        case Issue(_, _) => IssueIsIssue(s, e, b);
        case Answer => AnswerIsAnswer(s, b);
        case GiveUp => GiveUpIsGiveUp(s, b);
        case Serve(_, _, _) => ServeIsServe(s, e, b);
        case Take =>
          OnlyMessages(d0, es, b);
          TakeIsHear(s, b);
      }
      hide Agree, Step, Enabled;
      c := Next(b, MoveOf(e));
      Tlp.Extend(d0, es, b, MoveOf(e), c);
    }
  }

  /** In every run in which the main thread does not look the selector up in the listener's span, selector
      and span are invisible: the run is one of SoftTlp, with the same bytes in every stream, the same
      registers and interrupts, and the same outcome of every read. */
  lemma {:induction false} SeparateRunsProject(d0: Regs, es: seq<Event>) returns (c: Tlp.Config)
    requires RegsOk(d0) && Possible(d0, es) && Separate(d0, es)
    ensures Tlp.Reaches(d0, Projected(es), c) && Agree(SysAfter(d0, es), c)
  {
    if es == [] {
      c := Tlp.Config(Tlp.Start(d0), Tlp.NO_HISTORY);
    } else {
      var n := |es| - 1;
      var b := SeparateRunsProject(d0, es[..n]);
      var s, e := SysAfter(d0, es[..n]), es[n];
      if MainUses(e) {
        SeparateUseOnMain(d0, es[..n]);
      }
      hide Agree, Step, Enabled;
      c := ProjectOne(d0, Projected(es[..n]), b, s, e);
    }
  }

  lemma {:induction false} NoGiveUp(es: seq<Event>)
    requires GiveUp !in es
    ensures Tlp.GiveUp !in Projected(es)
  {
    if es != [] {
      NoGiveUp(es[..|es| - 1]);
    }
  }

  lemma {:induction false} ExactReads(d0: Regs, s: Sys, c: Tlp.Config, i: nat)
    requires RegsOk(d0) && Agree(s, c) && AllOk(c.h.issued) && i < |c.h.ended|
    requires EndToEnd.OwnAnswer(d0, c.h.issued, c.h.ended[i])
    requires var ks := Tlp.Reads(c.h.issued, |c.h.issued|); i < |ks| && c.h.ended[i].k == ks[i]
    ensures s.ended[i] == Ended(false, true, Response(d0, s.issued, Tlp.Reads(s.issued, |s.issued|)[i]))
  {
    hide Tlp.Reads, Response, CallOk, ListenerOk, WiresAgree;
  }

  /** The i-th read that has ended is the i-th issued, and it ended with what the sequential device answers. */
  predicate Exact(d0: Regs, issued: seq<Access>, ended: seq<Ended>, i: nat)
    requires RegsOk(d0) && AllOk(issued) && i < |ended|
  {
    var ks := Tlp.Reads(issued, |issued|);
    i < |ks| && ended[i] == Ended(false, true, Response(d0, issued, ks[i]))
  }

  lemma {:induction false} ExactAt(d0: Regs, es: seq<Event>, c: Tlp.Config, s: Sys, i: nat)
    requires RegsOk(d0) && Tlp.Reaches(d0, Projected(es), c) && GiveUp !in es && Agree(s, c) && i < |s.ended|
    ensures AllOk(s.issued) && Exact(d0, s.issued, s.ended, i)
  {
    NoGiveUp(es);
    hide Projected, Tlp.Reaches, Tlp.Reads, Response;
    EndToEnd.WithoutTimeoutsAllReadsAreExact(d0, Projected(es), c);
    EndToEnd.ReadsEndInOrder(d0, Projected(es), c, i);
    ExactReads(d0, s, c, i);
  }

  /** So in a separate run without timeouts every read ends exactly so. */
  lemma {:induction false} SeparateReadsAreExact(d0: Regs, es: seq<Event>, i: nat)
    requires RegsOk(d0) && Possible(d0, es) && Separate(d0, es) && GiveUp !in es
    requires i < |SysAfter(d0, es).ended|
    ensures AllOk(SysAfter(d0, es).issued)
    ensures Exact(d0, SysAfter(d0, es).issued, SysAfter(d0, es).ended, i)
  {
    var c := SeparateRunsProject(d0, es);
    hide Projected, Tlp.Reaches, Possible, SysAfter, Separate, Agree, Exact;
    ExactAt(d0, es, c, SysAfter(d0, es), i);
  }

  // ---- Separate calls go on ----

  /** What the main thread can do next in a call. */
  function Onward(s: Sys): Event
    requires !s.call.Idle?
  {
    match s.call
    case Sent => Arm
    case Armed => Listen
    case Reading(_) => GiveUp
    case Headed(h) => if h.count > 0 then Fill else Answer
    case Filling(_, _) => Answer
    case Returned => Disarm
  }

  lemma OnwardEnabled(s: Sys, c: Tlp.Config)
    requires Agree(s, c) && !s.call.Idle?
    requires s.call.Filling? ==> Parse(ToBridge, c.w.toBridge).Some?
    ensures Enabled(s, Onward(s))
  {
    if s.call.Filling? {
      HeaderThenPayload(s.call.h, s.w.toBridge);
    }
    hide Parse, EncodeHeader;
  }

  /** In a separate run a call never hangs: its next step is always enabled, at worst the end of its time
      limit. A payload whose header has been read is there. */
  lemma {:induction false} SeparateCallGoesOn(d0: Regs, es: seq<Event>)
    requires RegsOk(d0) && Possible(d0, es) && Separate(d0, es) && !SysAfter(d0, es).call.Idle?
    ensures Enabled(SysAfter(d0, es), Onward(SysAfter(d0, es)))
  {
    var c := SeparateRunsProject(d0, es);
    var s := SysAfter(d0, es);
    hide Projected, Tlp.Reaches, Possible, SysAfter, Separate, Parse, EncodeHeader, Enabled, Onward;
    EndToEnd.StreamsStayReadable(d0, Projected(es), c, 0);
    if s.call.Filling? {
      assert c.w.toBridge != [];
      assert Tlp.Enabled(c.w, Tlp.Answer);
    }
    OnwardEnabled(s, c);
  }
}
