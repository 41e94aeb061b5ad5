/** The glue around the RAM (src/hdl/sim_top.sv): the write envelope and the read-request latch,
    composed with the RAM clocked by the same edge. The PIO engines are inputs. */
module SimTop {
  import opened PowersOfTwo
  import opened AxiRam

  /** The instance: 32-bit data, 20-bit addresses, no output pipeline. */
  const RAM := Config(20, 2, false)

  lemma Sizes()
    ensures Parameters(RAM) && Lanes(RAM) == 4
    ensures AddrSpace(RAM) == 0x10_0000 && Depth(RAM) == 0x4_0000
  {
    assert Pow2(5) == 32;
    Pow2Add(5, 5);
    Pow2Add(10, 10);
    Pow2Add(8, 10);
    assert Pow2(8) == 8 * Pow2(5);
  }

  type Bits9 = x: int | 0 <= x < 0x200
  type Bits11 = x: int | 0 <= x < 0x800
  type Data = w: Word | |w| == 4 witness [0, 0, 0, 0]

  /** The registers of the write envelope and of the read-request latch. */
  datatype GlueRegs = GlueRegs(
    wActive: bool, wData: Data, wAddr: Bits11, latched: bool, tagLatch: Bits8, addrLatch: Bits11)

  datatype Top = Top(g: GlueRegs, ram: State)

  /** Inputs of one cycle. `wr*` come from PIO_RX_ENGINE; `rxBeat1` says that beat 1 of a packet is
      handshaken and `rxAddr` is its tdata[10:2]; `tailGate` is a net nothing drives. */
  datatype Pins = Pins(
    rstN: bool, wrEn: bool, wrAddr: Bits11, wrData: Data,
    rxBeat1: bool, rxAddr: Bits9, complDone: bool, tailGate: bool)

  predicate TopFits(t: Top) {
    Fits(RAM, t.ram)
  }

  /** Beat 1 of something that is not a write: the combinational lookahead. */
  predicate ReadDetected(p: Pins) {
    p.rxBeat1 && !p.wrEn
  }

  function ActiveIndex(g: GlueRegs, p: Pins): Bits11 {
    if g.latched then g.addrLatch else if ReadDetected(p) then p.rxAddr else 0
  }

  /** {1'b1, active_index[8:0], 2'b00}, zero extended. */
  function ReadAddress(g: GlueRegs, p: Pins): nat {
    0x800 + ActiveIndex(g, p) % 0x200 * 4
  }

  /** The RAM port wiring. */
  function RamPins(g: GlueRegs, p: Pins): (i: Inputs)
    ensures InputsFit(RAM, i) && i.rst == !p.rstN
  {
    Sizes();
    var valid := g.wActive || p.wrEn;
    Inputs(
      !p.rstN,
      0, (if g.wActive then g.wAddr else p.wrAddr) * 4, 0, 2, 1, valid,
      if g.wActive then g.wData else p.wrData, [true, true, true, true], true, valid,
      true,
      0, ReadAddress(g, p), 0, 2, 1, g.latched || p.tailGate,
      true)
  }

  /** The clocked blocks of the glue; `wready` is the RAM's ready wire before the edge. */
  function GlueNext(g: GlueRegs, wready: bool, p: Pins): GlueRegs {
    if !p.rstN then
      GlueRegs(false, [0, 0, 0, 0], 0, false, 0, 0)
    else
      var envelope :=
        if p.wrEn then g.(wActive := true, wData := p.wrData, wAddr := p.wrAddr)
        else if wready && g.wActive then g.(wActive := false)
        else g;
      if !g.latched && ReadDetected(p) then
        envelope.(latched := true, tagLatch := (1 + p.rxAddr) % 256, addrLatch := p.rxAddr)
      else if g.latched && p.complDone then
        envelope.(latched := false)
      else
        envelope
  }

  /** One clock edge of the whole design. */
  function TopStep(t: Top, p: Pins): (n: Top)
    requires TopFits(t)
    ensures TopFits(n)
  {
    Top(GlueNext(t.g, t.ram.w.wready, p), Step(RAM, t.ram, RamPins(t.g, p)))
  }

  predicate TopAfterReset(t: Top) {
    !t.g.wActive && !t.g.latched && AfterReset(t.ram)
  }

  /** One edge with reset asserted is enough, from any state. */
  lemma ResetResets(t: Top, p: Pins)
    requires TopFits(t) && !p.rstN
    ensures TopAfterReset(TopStep(t, p))
  {
  }

  function TopRun(t: Top, ps: seq<Pins>): (n: Top)
    requires TopFits(t)
    ensures TopFits(n)
  {
    if ps == [] then t else TopStep(TopRun(t, ps[..|ps| - 1]), ps[|ps| - 1])
  }

  predicate OutOfReset(ps: seq<Pins>) {
    forall k :: 0 <= k < |ps| ==> ps[k].rstN
  }

  /** The glue as a clocked module driving a RAM object. */
  class Glue {
    var g: GlueRegs
    const ram: Ram

    ghost function Regs(): Top
      reads this, ram, ram.mem
    {
      Top(g, ram.Regs())
    }

    ghost predicate Valid()
      reads this, ram, ram.mem
    {
      ram.c == RAM && TopFits(Regs())
    }

    constructor ()
      ensures Valid() && TopAfterReset(Regs()) && fresh(ram) && fresh(ram.mem)
    {
      Sizes();
      g := GlueRegs(false, [0, 0, 0, 0], 0, false, 0, 0);
      ram := new Ram(RAM);
    }

    /** One clock edge: the RAM sees the wires as they were before the glue registers move. */
    method Clock(p: Pins)
      requires Valid()
      modifies this, ram, ram.mem
      ensures Valid() && Regs() == TopStep(old(Regs()), p)
    {
      var pins, wready := RamPins(g, p), ram.w.wready;
      ram.Clock(pins);
      var was := g;
      if !p.rstN {
        g := GlueRegs(false, [0, 0, 0, 0], 0, false, 0, 0);
      } else {
        if p.wrEn {
          g := g.(wActive := true, wData := p.wrData, wAddr := p.wrAddr);
        } else if wready && was.wActive {
          g := g.(wActive := false);
        }
        if !was.latched && ReadDetected(p) {
          g := g.(latched := true, tagLatch := (1 + p.rxAddr) % 256, addrLatch := p.rxAddr);
        }
        if was.latched && p.complDone {
          g := g.(latched := false);
        }
      }
    }
  }
}
