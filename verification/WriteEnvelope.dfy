/** The write envelope composed with the RAM: exactly when every `wr_en` pulse becomes one RAM write
    of its own address and data. */
module WriteEnvelope {
  import opened PowersOfTwo
  import opened AxiRam
  import opened SimTop

  /** A cycle with wr_en high, and a word the RAM wrote at the end of a cycle. */
  datatype Pulse = Pulse(cycle: nat, addr: Bits11, data: Data)
  datatype RamWrite = RamWrite(cycle: nat, word: nat, data: Word)

  /** `overruns` counts the pulses that came while the envelope was full and not being emptied. */
  datatype Log = Log(pulses: seq<Pulse>, writes: seq<RamWrite>, overruns: nat)

  predicate Overrun(t: Top, p: Pins) {
    p.wrEn && t.g.wActive && !t.ram.w.wready
  }

  function Observe(log: Log, cycle: nat, t: Top, p: Pins): Log
    requires TopFits(t)
  {
    var i := RamPins(t.g, p);
    Log(log.pulses + (if p.wrEn then [Pulse(cycle, p.wrAddr, p.wrData)] else []),
        log.writes + (if MemWrite(t.ram.w, i)
        then [RamWrite(cycle, WordIndex(RAM, t.ram.w.addr), i.wdata)] else []),
        log.overruns + (if Overrun(t, p) then 1 else 0))
  }

  function LogOf(t: Top, ps: seq<Pins>): Log
    requires TopFits(t)
  {
    if ps == [] then Log([], [], 0)
    else
      var n := |ps| - 1;
      Observe(LogOf(t, ps[..n]), n, TopRun(t, ps[..n]), ps[n])
  }

  /** The write is this pulse's own, one or two cycles later. */
  predicate Serves(w: RamWrite, p: Pulse) {
    w.word == p.addr && w.data == p.data && p.cycle < w.cycle <= p.cycle + 2
  }

  /** Pulse k became write k, for all pulses but at most one that is at most two cycles old. */
  predicate Paired(t: Top, log: Log, now: nat) {
    && |log.pulses| == |log.writes| + (if t.g.wActive then 1 else 0)
    && (forall k :: 0 <= k < |log.writes| ==> Serves(log.writes[k], log.pulses[k]))
    && (t.g.wActive ==> now <= log.pulses[|log.writes|].cycle + 2)
  }

  /** A plain memory that takes pulses one after another. */
  function Poke(mem: seq<Word>, ps: seq<Pulse>): (m: seq<Word>)
    requires |mem| >= 0x800
    ensures |m| == |mem|
  {
    if ps == [] then mem
    else
      var p := ps[|ps| - 1];
      Poke(mem, ps[..|ps| - 1])[p.addr := p.data]
  }

  lemma {:induction false} PokeNext(mem: seq<Word>, ps: seq<Pulse>, k: nat)
    requires |mem| >= 0x800 && k < |ps|
    ensures Poke(mem, ps[..k + 1]) == Poke(mem, ps[..k])[ps[k].addr := ps[k].data]
  {
    assert ps[..k + 1][..k] == ps[..k];
  }

  /** The phases of an envelope: empty; full with the address not yet taken; full with the RAM about
      to take the data. `previous` is wr_en one cycle ago. */
  predicate Phase(t: Top, log: Log, now: nat, previous: bool) {
    var w := t.ram.w;
    && (w.wready <==> w.fsm.Burst?)
    && !w.fsm.Resp?
    && (!t.g.wActive ==> w.fsm.Idle?)
    && (t.g.wActive && w.fsm.Idle? ==> w.awready && previous)
    && (w.fsm.Burst? ==> w.count == 0)
    && (t.g.wActive ==>
          && log.pulses != []
          && var p := log.pulses[|log.pulses| - 1];
          && p.addr == t.g.wAddr && p.data == t.g.wData
          && p.cycle < now <= p.cycle + (if w.fsm.Burst? then 2 else 1))
  }

  ghost predicate Tracks(m0: seq<Word>, t: Top, log: Log, now: nat, previous: bool)
    requires TopFits(t) && |m0| == Depth(RAM)
  {
    && Phase(t, log, now, previous)
    && |log.pulses| == |log.writes| + log.overruns + (if t.g.wActive then 1 else 0)
    && (log.overruns == 0 ==> Faithful(m0, t, log))
  }

  lemma PulseWord(addr: Bits11)
    ensures addr * 4 < AddrSpace(RAM) && WordIndex(RAM, addr * 4) == addr
  {
    Sizes();
    DivModUnique(addr * 4, addr, 4, 0);
  }

  /** All strobes are wired high, so a RAM write replaces the word. */
  lemma WholeWord(was: Word, data: Data)
    requires |was| == 4
    ensures Merge(was, data, [true, true, true, true]) == data
  {
  }

  lemma PhaseEdge(t: Top, p: Pins, log: Log, now: nat, previous: bool)
    requires TopFits(t) && p.rstN && Phase(t, log, now, previous)
    ensures Phase(TopStep(t, p), Observe(log, now, t, p), now + 1, p.wrEn)
  {
  }

  /** The memory, and the word and data of a write, when no pulse was lost. */
  ghost predicate Faithful(m0: seq<Word>, t: Top, log: Log)
    requires TopFits(t) && |m0| == Depth(RAM)
  {
    && |log.writes| <= |log.pulses| && |m0| >= 0x800
    && (forall k :: 0 <= k < |log.writes| ==> Serves(log.writes[k], log.pulses[k]))
    && (t.ram.w.fsm.Burst? ==> WordIndex(RAM, t.ram.w.addr) == t.g.wAddr)
    && t.ram.mem == Poke(m0, log.pulses[..|log.writes|])
  }

  /** What happens at an edge at which the RAM takes the envelope's data. */
  lemma DataTaken(t: Top, p: Pins, log: Log, now: nat, previous: bool)
    requires TopFits(t) && p.rstN && Phase(t, log, now, previous) && t.ram.w.fsm.Burst?
    requires WordIndex(RAM, t.ram.w.addr) == t.g.wAddr && |t.ram.mem| >= 0x800
    ensures var n, log' := TopStep(t, p), Observe(log, now, t, p);
            && n.ram.mem == t.ram.mem[t.g.wAddr := t.g.wData] && n.ram.w.fsm.Idle?
            && log'.writes == log.writes + [RamWrite(now, t.g.wAddr, t.g.wData)]
            && log.pulses <= log'.pulses
  {
    WholeWord(t.ram.mem[t.g.wAddr], t.g.wData);
  }

  /** The RAM takes the envelope's data. */
  lemma WriteEdge(m0: seq<Word>, t: Top, p: Pins, log: Log, now: nat, previous: bool)
    requires TopFits(t) && |m0| == Depth(RAM) && p.rstN
    requires Phase(t, log, now, previous) && Faithful(m0, t, log) && t.ram.w.fsm.Burst?
    requires |log.pulses| == |log.writes| + 1
    ensures Faithful(m0, TopStep(t, p), Observe(log, now, t, p))
  {
    var k, pulses := |log.writes|, Observe(log, now, t, p).pulses;
    DataTaken(t, p, log, now, previous);
    PokeNext(m0, pulses, k);
    hide Poke, TopStep, Observe, WordIndex;
    assert pulses[..k] == log.pulses[..k];
  }

  /** The RAM waits, or takes the envelope's address. */
  lemma OtherEdge(m0: seq<Word>, t: Top, p: Pins, log: Log, now: nat, previous: bool)
    requires TopFits(t) && |m0| == Depth(RAM) && p.rstN
    requires Phase(t, log, now, previous) && Faithful(m0, t, log) && !t.ram.w.fsm.Burst?
    requires !Overrun(t, p)
    ensures Faithful(m0, TopStep(t, p), Observe(log, now, t, p))
  {
    PulseWord(t.g.wAddr);
    PulseWord(p.wrAddr);
    var k, log' := |log.writes|, Observe(log, now, t, p);
    assert log'.writes == log.writes && log'.pulses[..k] == log.pulses[..k];
  }

  lemma EdgeTracks(m0: seq<Word>, t: Top, p: Pins, log: Log, now: nat, previous: bool)
    requires TopFits(t) && |m0| == Depth(RAM) && p.rstN && Tracks(m0, t, log, now, previous)
    ensures Tracks(m0, TopStep(t, p), Observe(log, now, t, p), now + 1, p.wrEn)
  {
    PhaseEdge(t, p, log, now, previous);
    if log.overruns == 0 && !Overrun(t, p) {
      if t.ram.w.fsm.Burst? {
        WriteEdge(m0, t, p, log, now, previous);
      } else {
        OtherEdge(m0, t, p, log, now, previous);
      }
    }
  }

  function Previous(ps: seq<Pins>): bool {
    ps != [] && ps[|ps| - 1].wrEn
  }

  lemma {:induction false} RunTracks(t: Top, ps: seq<Pins>)
    requires TopFits(t) && TopAfterReset(t) && OutOfReset(ps)
    ensures Tracks(t.ram.mem, TopRun(t, ps), LogOf(t, ps), |ps|, Previous(ps))
  {
    if ps == [] {
      Sizes();
    } else {
      var n := |ps| - 1;
      RunTracks(t, ps[..n]);
      EdgeTracks(t.ram.mem, TopRun(t, ps[..n]), ps[n], LogOf(t, ps[..n]), n, Previous(ps[..n]));
    }
  }

  predicate OverrunAt(t: Top, ps: seq<Pins>, k: nat)
    requires TopFits(t) && k < |ps|
  {
    Overrun(TopRun(t, ps[..k]), ps[k])
  }

  /** Every pulse so far found the envelope empty or being emptied. */
  predicate NoOverrun(t: Top, ps: seq<Pins>)
    requires TopFits(t)
  {
    forall k :: 0 <= k < |ps| ==> !OverrunAt(t, ps, k)
  }

  lemma OverrunAtPrefix(t: Top, ps: seq<Pins>, n: nat, k: nat)
    requires TopFits(t) && k < n <= |ps|
    ensures OverrunAt(t, ps[..n], k) == OverrunAt(t, ps, k)
  {
    assert ps[..n][..k] == ps[..k];
  }

  lemma NoOverrunSplit(t: Top, ps: seq<Pins>)
    requires TopFits(t) && ps != []
    ensures NoOverrun(t, ps) <==> NoOverrun(t, ps[..|ps| - 1]) && !OverrunAt(t, ps, |ps| - 1)
  {
    hide OverrunAt;
    var n := |ps| - 1;
    forall k | 0 <= k < n
      ensures OverrunAt(t, ps[..n], k) == OverrunAt(t, ps, k)
    {
      OverrunAtPrefix(t, ps, n, k);
    }
  }

  lemma {:induction false} OverrunsCounted(t: Top, ps: seq<Pins>)
    requires TopFits(t)
    ensures LogOf(t, ps).overruns == 0 <==> NoOverrun(t, ps)
  {
    if ps != [] {
      OverrunsCounted(t, ps[..|ps| - 1]);
      NoOverrunSplit(t, ps);
    }
  }

  /** In every run after reset, pulses that come in the first cycle included: each pulse has become
      one RAM write of its own address and data, in order and within two cycles, if and only if no
      pulse came while the envelope was full and the RAM was not taking its data. */
  lemma {:induction false} PairedExactlyWithoutOverrun(t: Top, ps: seq<Pins>)
    requires TopFits(t) && TopAfterReset(t) && OutOfReset(ps)
    ensures NoOverrun(t, ps) <==> Paired(TopRun(t, ps), LogOf(t, ps), |ps|)
  {
    hide TopRun, LogOf, NoOverrun;
    RunTracks(t, ps);
    OverrunsCounted(t, ps);
  }

  predicate PulsesAdjoin(ps: seq<Pins>, k: nat)
    requires k < |ps|
  {
    k > 0 && ps[k - 1].wrEn && ps[k].wrEn
  }

  /** wr_en is never high on adjacent cycles. */
  predicate Spaced(ps: seq<Pins>) {
    forall k :: 0 <= k < |ps| ==> !PulsesAdjoin(ps, k)
  }

  lemma SpacedNeverOverruns(t: Top, ps: seq<Pins>, k: nat)
    requires TopFits(t) && TopAfterReset(t) && OutOfReset(ps) && Spaced(ps) && k < |ps|
    ensures !OverrunAt(t, ps, k)
  {
    hide TopRun, LogOf;
    RunTracks(t, ps[..k]);
    assert !PulsesAdjoin(ps, k);
  }

  /** Spaced pulses never overrun, so they are all paired, and the RAM holds what a plain memory
      holds after the pulses written so far. */
  lemma {:induction false} SpacedPulsesArePaired(t: Top, ps: seq<Pins>)
    requires TopFits(t) && TopAfterReset(t) && OutOfReset(ps) && Spaced(ps)
    ensures NoOverrun(t, ps)
    ensures var end, log := TopRun(t, ps), LogOf(t, ps);
            && Paired(end, log, |ps|)
            && |t.ram.mem| >= 0x800
            && end.ram.mem == Poke(t.ram.mem, log.pulses[..|log.writes|])
  {
    hide TopRun, LogOf, OverrunAt;
    forall k | 0 <= k < |ps|
      ensures !OverrunAt(t, ps, k)
    {
      SpacedNeverOverruns(t, ps, k);
    }
    RunTracks(t, ps);
    OverrunsCounted(t, ps);
  }

  lemma {:induction false} OneMore(t: Top, ps: seq<Pins>, p: Pins)
    requires TopFits(t)
    ensures TopRun(t, ps + [p]) == TopStep(TopRun(t, ps), p)
    ensures LogOf(t, ps + [p]) == Observe(LogOf(t, ps), |ps|, TopRun(t, ps), p)
  {
    assert (ps + [p])[..|ps|] == ps;
  }

  /** After a pulse in the first cycle out of reset the envelope is full and the RAM not yet ready. */
  lemma PulseRightAfterReset(t: Top, p: Pins, log: Log)
    requires TopFits(t) && TopAfterReset(t) && p.rstN && p.wrEn
    ensures var n := TopStep(t, p);
            && n.g.wActive && n.g.wAddr == p.wrAddr && n.g.wData == p.wrData
            && n.ram.w.fsm.Idle? && n.ram.w.awready && !n.ram.w.wready
            && Observe(log, 0, t, p).writes == log.writes
  {
  }

  /** A second pulse then: the RAM takes the first pulse's address, the envelope the second's data. */
  lemma PulseOnFullEnvelope(t: Top, p: Pins, log: Log)
    requires TopFits(t) && t.g.wActive && t.ram.w.fsm.Idle? && t.ram.w.awready && !t.ram.w.wready
    requires p.rstN && p.wrEn
    ensures var n := TopStep(t, p);
            && n.g.wActive && n.g.wData == p.wrData
            && n.ram.w.fsm.Burst? && n.ram.w.wready && n.ram.w.addr == t.g.wAddr * 4
            && Observe(log, 1, t, p).writes == log.writes
  {
  }

  /** The smallest failure: a second pulse one cycle after a first one that came right after reset.
      Its data is stored at the first pulse's address, and the first pulse's data nowhere. */
  lemma {:induction false} AdjacentPulsesCollide(t: Top, p0: Pins, p1: Pins, p2: Pins)
    requires TopFits(t) && TopAfterReset(t) && OutOfReset([p0, p1, p2])
    requires p0.wrEn && p1.wrEn
    ensures LogOf(t, [p0, p1, p2]).writes == [RamWrite(2, p0.wrAddr, p1.wrData)]
    ensures !NoOverrun(t, [p0, p1, p2])
  {
    var ps := [p0, p1, p2];
    assert ps[0].rstN && ps[1].rstN;
    assert TopRun(t, []) == t && LogOf(t, []) == Log([], [], 0);
    hide TopRun, LogOf;
    assert ps[..1] == [] + [p0] && ps[..2] == [p0] + [p1] && ps == [p0, p1] + [p2];
    OneMore(t, [], p0);
    OneMore(t, [p0], p1);
    OneMore(t, [p0, p1], p2);
    PulseRightAfterReset(t, p0, LogOf(t, []));
    PulseOnFullEnvelope(TopRun(t, [p0]), p1, LogOf(t, [p0]));
    PulseWord(p0.wrAddr);
    assert OverrunAt(t, ps, 1);
  }
}
