/** The glue and its RAM as a register file: what a latched read shows is the last word written to its
    address. Joins the write envelope and the read latch. */
module RegisterFile {
  import opened AxiRam
  import opened SimTop
  import opened WriteEnvelope
  import opened ReadLatch

  /** Word `k` after these pulses, if it held `first` before them. */
  function LastWritten(ps: seq<Pulse>, k: nat, first: Word): Word {
    if ps == [] then first
    else
      var p := ps[|ps| - 1];
      if p.addr == k then p.data else LastWritten(ps[..|ps| - 1], k, first)
  }

  lemma {:induction false} PokedWord(mem: seq<Word>, ps: seq<Pulse>, k: nat)
    requires |mem| >= 0x800 && k < |mem|
    ensures Poke(mem, ps)[k] == LastWritten(ps, k, mem[k])
  {
    if ps != [] {
      PokedWord(mem, ps[..|ps| - 1], k);
    }
  }

  // ---- Runs in two parts ----

  lemma {:induction false} RunOn(t: Top, ps: seq<Pins>, more: seq<Pins>)
    requires TopFits(t)
    ensures TopRun(t, ps + more) == TopRun(TopRun(t, ps), more)
    decreases |more|
  {
    if more == [] {
      assert ps + more == ps;
    } else {
      var n := |more| - 1;
      assert (ps + more)[..|ps + more| - 1] == ps + more[..n];
      RunOn(t, ps, more[..n]);
    }
  }

  /** wr_en stays low from cycle `from` on. */
  predicate SilentFrom(ps: seq<Pins>, from: nat) {
    forall k :: from <= k < |ps| ==> !ps[k].wrEn
  }

  /** The pulses of a run, read off the pins. */
  function Pulses(ps: seq<Pins>): seq<Pulse> {
    if ps == [] then []
    else
      var n := |ps| - 1;
      Pulses(ps[..n]) + if ps[n].wrEn then [Pulse(n, ps[n].wrAddr, ps[n].wrData)] else []
  }

  lemma PulseSeen(log: Log, cycle: nat, t: Top, p: Pins)
    requires TopFits(t)
    ensures Observe(log, cycle, t, p).pulses ==
            log.pulses + if p.wrEn then [Pulse(cycle, p.wrAddr, p.wrData)] else []
  {
  }

  lemma {:induction false} PulsesLogged(t: Top, ps: seq<Pins>)
    requires TopFits(t)
    ensures LogOf(t, ps).pulses == Pulses(ps)
  {
    if ps != [] {
      var n := |ps| - 1;
      PulsesLogged(t, ps[..n]);
      PulseSeen(LogOf(t, ps[..n]), n, TopRun(t, ps[..n]), ps[n]);
    }
  }

  lemma {:induction false} PulsesBefore(ps: seq<Pins>, from: nat)
    requires from <= |ps| && SilentFrom(ps, from)
    ensures Pulses(ps) == Pulses(ps[..from])
  {
    var n := |ps|;
    if n == from {
      assert ps[..from] == ps;
    } else {
      PulsesBefore(ps[..n - 1], from);
      assert ps[..n - 1][..from] == ps[..from];
    }
  }

  lemma {:induction false} PulseCycles(ps: seq<Pins>)
    ensures forall k :: 0 <= k < |Pulses(ps)| ==> Pulses(ps)[k].cycle < |ps|
  {
    if ps != [] {
      PulseCycles(ps[..|ps| - 1]);
    }
  }

  /** Two cycles after the last pulse the envelope is empty, and the memory is that of a plain memory
      after all the pulses. */
  lemma {:induction false} Drained(t: Top, ps: seq<Pins>, from: nat)
    requires TopFits(t) && TopAfterReset(t) && OutOfReset(ps) && Spaced(ps)
    requires SilentFrom(ps, from) && from + 2 <= |ps|
    ensures |t.ram.mem| >= 0x800 && TopRun(t, ps).ram.mem == Poke(t.ram.mem, Pulses(ps[..from]))
  {
    SpacedPulsesArePaired(t, ps);
    PulsesLogged(t, ps);
    PulsesBefore(ps, from);
    PulseCycles(ps[..from]);
    var log := LogOf(t, ps);
    assert !TopRun(t, ps).g.wActive;
    assert log.pulses[..|log.writes|] == log.pulses;
  }

  /** ... and it no longer changes. */
  lemma {:induction false} DrainedAt(t: Top, ps: seq<Pins>, from: nat, at: nat)
    requires TopFits(t) && TopAfterReset(t) && OutOfReset(ps) && Spaced(ps)
    requires SilentFrom(ps, from) && from + 2 <= at <= |ps|
    ensures |t.ram.mem| >= 0x800 && TopRun(t, ps[..at]).ram.mem == Poke(t.ram.mem, Pulses(ps[..from]))
  {
    assert ps[..at][..from] == ps[..from];
    forall k | 0 <= k < at
      ensures !PulsesAdjoin(ps[..at], k)
    {
      assert !PulsesAdjoin(ps, k);
    }
    Drained(t, ps[..at], from);
  }

  lemma {:induction false} HeldFor(t: Top, before: seq<Pins>, held: seq<Pins>, n: nat)
    requires TopFits(t) && n <= |held|
    ensures TopRun(TopRun(t, before), held[..n]) == TopRun(t, (before + held)[..|before| + n])
  {
    assert (before + held)[..|before| + n] == before + held[..n];
    RunOn(t, before, held[..n]);
  }

  lemma {:induction false} SteadyWhileHeld(t: Top, before: seq<Pins>, held: seq<Pins>, from: nat, n: nat)
    requires TopFits(t) && TopAfterReset(t) && OutOfReset(before + held) && Spaced(before + held)
    requires n <= |held| && from + 2 <= |before| && SilentFrom(before + held, from)
    ensures |t.ram.mem| >= 0x800
    ensures TopRun(TopRun(t, before), held[..n]).ram.mem == Poke(t.ram.mem, Pulses((before + held)[..from]))
  {
    hide TopRun;
    HeldFor(t, before, held, n);
    DrainedAt(t, before + held, from, |before| + n);
  }

  /** A request held for three cycles over a memory that stays the same shows its word. */
  lemma {:induction false} SettlesOnSteadyWord(t: Top, before: seq<Pins>, held: seq<Pins>, mem: seq<Word>)
    requires TopFits(t) && TopAfterReset(t) && TopRun(t, before).g.latched && Held(held) && |held| == 3
    requires TopRun(TopRun(t, before), held[..1]).ram.mem == mem
    requires TopRun(TopRun(t, before), held[..2]).ram.mem == mem
    requires TopRun(TopRun(t, before), held[..3]).ram.mem == mem
    ensures LatchedWord(TopRun(t, before).g) < |mem|
    ensures TopRun(TopRun(t, before), held).ram.r.out.data == mem[LatchedWord(TopRun(t, before).g)]
  {
    hide TopRun;
    LatchedWordArrives(t, before, held);
    assert held[..3] == held;
  }

  lemma {:induction false} ShowsThePokedWord(t: Top, before: seq<Pins>, held: seq<Pins>, from: nat)
    requires TopFits(t) && TopAfterReset(t) && OutOfReset(before + held) && Spaced(before + held)
    requires TopRun(t, before).g.latched && Held(held) && |held| == 3
    requires from + 2 <= |before| && SilentFrom(before + held, from)
    ensures var k := LatchedWord(TopRun(t, before).g);
            && |t.ram.mem| >= 0x800 && k < |t.ram.mem|
            && TopRun(TopRun(t, before), held).ram.r.out.data
               == Poke(t.ram.mem, Pulses((before + held)[..from]))[k]
  {
    SteadyWhileHeld(t, before, held, from, 1);
    SteadyWhileHeld(t, before, held, from, 2);
    SteadyWhileHeld(t, before, held, from, 3);
    SettlesOnSteadyWord(t, before, held, Poke(t.ram.mem, Pulses((before + held)[..from])));
  }

  lemma {:induction false} WordAfterPulses(mem: seq<Word>, ps: seq<Pins>, from: nat, k: nat)
    requires |mem| >= 0x800 && k < |mem| && from <= |ps| && SilentFrom(ps, from)
    ensures Poke(mem, Pulses(ps[..from]))[k] == LastWritten(Pulses(ps), k, mem[k])
  {
    PulsesBefore(ps, from);
    PokedWord(mem, Pulses(ps), k);
  }

  /** Write then read, over the whole design: after any run from reset in which wr_en was never high on
      adjacent cycles, once wr_en has been low for five cycles and a read request has stood for the last
      three of them, `rd_data` is the data of the last pulse to the word that request asked for on the
      pins, or what the word held at reset if there was none. */
  lemma {:induction false} ReadsTheLastPulse(t: Top, before: seq<Pins>, held: seq<Pins>)
    requires TopFits(t) && TopAfterReset(t) && OutOfReset(before + held) && Spaced(before + held)
    requires Standing(before) >= 0 && Held(held) && |held| == 3
    requires |before| >= 2 && SilentFrom(before + held, |before| - 2)
    ensures var k := 0x200 + before[Standing(before)].rxAddr;
            && k < |t.ram.mem|
            && TopRun(t, before + held).ram.r.out.data == LastWritten(Pulses(before + held), k, t.ram.mem[k])
  {
    assert before == (before + held)[..|before|];
    LatchFollowsRequests(t, before);
    hide TopRun, Standing;
    var from, k := |before| - 2, LatchedWord(TopRun(t, before).g);
    ShowsThePokedWord(t, before, held, from);
    WordAfterPulses(t.ram.mem, before + held, from, k);
    RunOn(t, before, held);
  }
}
