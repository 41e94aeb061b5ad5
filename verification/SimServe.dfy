/** The simulator's loop inside the system: one exchange on the main socket is the Serve move of SoftTlp. */
module SimServe {
  import opened Protocol
  import opened Receive
  import opened Device
  import opened SimLoop
  import Tlp = SoftTlp
  import EndToEnd

  /** The loop stands at the simulator's end of these wires. `taken` and `heard` are what the bridge has
      already read of the bytes sent to it. */
  predicate Linked(l: Loop, w: Tlp.Wires, taken: seq<Byte>, heard: seq<Byte>) {
    && Ok(l) && !l.overrun && l.fd[0] > 0 && l.fd[1] > 0
    && Clear(l.queue[0]) == w.toSim && l.dev == w.dev
    && l.out[0] == taken + w.toBridge && l.out[1] == heard + w.async
  }

  /** The request the system would serve next is the packet the loop takes. */
  lemma TakesTheNextRequest(l: Loop, w: Tlp.Wires, e: Tlp.Event)
    requires Ok(l) && Clear(l.queue[0]) == w.toSim && e.Serve? && Tlp.Enabled(w, e)
    ensures var t, (p, rest) := Take(l.queue[0]), Parse(ToSim, w.toSim).value;
            && t.Took? && t.p == p && Clear(t.rest) == rest
            && IsMemory(p.h.kind) && AccessOk(AccessOf(p)) && p.h.count <= MAX_COUNT
  {
    TakeIsParse(l.queue[0]);
    hide Take, Clear, DecodeHeader;
  }

  lemma WriteIsServe(l: Loop, w: Tlp.Wires, p: Packet, rest: seq<Byte>, ackPad: Byte, msgPad: Byte,
                     taken: seq<Byte>, heard: seq<Byte>)
    requires Ok(l) && l.fd[1] > 0 && RegsOk(w.dev) && l.dev == w.dev
    requires l.out[0] == taken + w.toBridge && l.out[1] == heard + w.async
    requires p.h.kind == MEM_WR && AccessOk(AccessOf(p))
    ensures var l', w' := WriteServed(l, p, msgPad), Tlp.Served(w, p, AccessOf(p), rest, ackPad, msgPad);
            && l'.dev == w'.dev && l'.out[0] == taken + w'.toBridge && l'.out[1] == heard + w'.async
            && l'.served == l.served + [p]
  {
    WrittenIsAfter(l.dev, p);
    hide Written, After, Encode;
    if RaisesInterrupt(AccessOf(p)) {
      Tlp.EncodeOne(InterruptMessage(msgPad));
      JoinAssociates(heard, w.async, Encode(InterruptMessage(msgPad)));
    }
  }

  lemma ReadIsServe(l: Loop, w: Tlp.Wires, p: Packet, rest: seq<Byte>, ackPad: Byte, msgPad: Byte, stale: Stale,
                    taken: seq<Byte>, heard: seq<Byte>)
    requires Ok(l) && RegsOk(w.dev) && l.dev == w.dev
    requires l.out[0] == taken + w.toBridge && l.out[1] == heard + w.async
    requires p.h.kind == MEM_RD && AccessOk(AccessOf(p))
    ensures var l', w' := ReadServed(l, 0, p, ackPad, stale), Tlp.Served(w, p, AccessOf(p), rest, ackPad, msgPad);
            && l'.overrun == l.overrun
            && l'.dev == w'.dev && l'.out[0] == taken + w'.toBridge && l'.out[1] == heard + w'.async
            && l'.served == l.served + [p]
  {
    WordsReadAreReadWords(l.dev, p);
    var words := WordsRead(l.dev, p.h);
    assert BytesOf(words) + stale[..0] == BytesOf(words);
    hide WordsRead, ReadWords, BytesOf, Encode;
    var ack := Acknowledgement(p.h, ReadData(l.dev, p.h, stale), ackPad);
    Tlp.EncodeOne(ack);
    JoinAssociates(taken, w.toBridge, Encode(ack));
  }

  /** One pass of the simulator's loop that reads the main socket takes the oldest request, does to the
      registers what the system's Serve does, and sends the same acknowledgement and the same interrupt
      message. */
  lemma ExchangeIsServe(l: Loop, w: Tlp.Wires, turn: Turn, taken: seq<Byte>, heard: seq<Byte>)
    requires Linked(l, w, taken, heard) && Reports(l, turn) && Picked(l, turn) == 0
    requires Tlp.Enabled(w, Tlp.Serve(turn.ackPad, turn.msgPad))
    ensures var l', w' := Exchanged(l, 0, turn), Tlp.Step(w, Tlp.Serve(turn.ackPad, turn.msgPad));
            && Linked(l', w', taken, heard) && l'.active == l.fd[0]
            && l'.served == l.served + [Parse(ToSim, w.toSim).value.0]
  {
    TakesTheNextRequest(l, w, Tlp.Serve(turn.ackPad, turn.msgPad));
    var (p, rest) := Parse(ToSim, w.toSim).value;
    TookFits(l.queue[0]);
    TakenOk(l, 0, Take(l.queue[0]).rest);
    var kept := l.(queue := l.queue[0 := Take(l.queue[0]).rest], active := l.fd[0]);
    hide Take, Clear, Parse, WriteServed, ReadServed, Tlp.Served, AccessOf, AccessOk, RegsOk;
    if p.h.kind == MEM_WR {
      WriteIsServe(kept, w, p, rest, turn.ackPad, turn.msgPad, taken, heard);
    } else {
      ReadIsServe(kept, w, p, rest, turn.ackPad, turn.msgPad, turn.stale, taken, heard);
    }
  }

  /** In every run of the system: if a request has reached the simulator and its loop reads the main socket,
      that exchange extends the run by a Serve. */
  lemma {:induction false} ExchangeExtendsTheRun(d0: Regs, es: seq<Tlp.Event>, b: Tlp.Config, l: Loop, turn: Turn,
                                                 taken: seq<Byte>, heard: seq<Byte>)
    requires RegsOk(d0) && Tlp.Reaches(d0, es, b) && b.w.toSim != []
    requires Linked(l, b.w, taken, heard) && Reports(l, turn) && Picked(l, turn) == 0
    ensures var e := Tlp.Serve(turn.ackPad, turn.msgPad);
            && Tlp.Enabled(b.w, e)
            && Linked(Exchanged(l, 0, turn), Tlp.Step(b.w, e), taken, heard)
            && Tlp.Reaches(d0, es + [e], Tlp.Config(Tlp.Step(b.w, e), Tlp.Record(b.h, b.w, e)))
  {
    var e := Tlp.Serve(turn.ackPad, turn.msgPad);
    EndToEnd.ServeEnabled(d0, es, b, e);
    hide Linked, Exchanged;
    ExchangeIsServe(l, b.w, turn, taken, heard);
    Tlp.Extend(d0, es, b, e, Tlp.Config(Tlp.Step(b.w, e), Tlp.Record(b.h, b.w, e)));
  }
}
