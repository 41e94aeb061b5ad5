/** The AXI RAM (src/hdl/axi_ram.v): its registers, one clock edge as a function of registers and
    inputs, and the clocked module itself as a class that updates the registers and `mem` in place. */
module AxiRam {
  import opened PowersOfTwo

  type Bits8 = x: int | 0 <= x < 256
  type Bits3 = x: int | 0 <= x < 8
  type Bits2 = x: int | 0 <= x < 4

  /** One WORD_SIZE-bit lane of the data bus; a word is STRB_WIDTH lanes. */
  type Lane = nat
  type Word = seq<Lane>
  type Id = nat

  /** The module parameters; STRB_WIDTH is 2**strbLog, as the bus width assertions demand. */
  datatype Config = Config(addrWidth: nat, strbLog: nat, pipeline: bool)

  predicate Parameters(c: Config) {
    c.strbLog <= c.addrWidth
  }

  function Lanes(c: Config): nat {
    Pow2(c.strbLog)
  }

  function AddrSpace(c: Config): nat {
    Pow2(c.addrWidth)
  }

  /** Number of words: 2**VALID_ADDR_WIDTH. */
  function Depth(c: Config): nat
    requires Parameters(c)
  {
    Pow2(c.addrWidth - c.strbLog)
  }

  datatype WriteFsm = Idle | Burst | Resp
  datatype ReadFsm = ReadIdle | ReadBurst

  datatype WriteRegs = WriteRegs(
    fsm: WriteFsm, id: Id, addr: nat, count: Bits8, size: Bits3, burst: Bits2,
    awready: bool, wready: bool, bid: Id, bvalid: bool)

  /** What a read beat carries: id, data and last. */
  datatype Beat = Beat(id: Id, data: Word, last: bool)

  /** `out` and `rvalid` are the output register, `pipe` and `pipeValid` the extra pipeline stage. */
  datatype ReadRegs = ReadRegs(
    fsm: ReadFsm, id: Id, addr: nat, count: Bits8, size: Bits3, burst: Bits2,
    arready: bool, out: Beat, rvalid: bool, pipe: Beat, pipeValid: bool)

  datatype State = State(w: WriteRegs, r: ReadRegs, mem: seq<Word>)

  /** The master's side of the port on one cycle; `wlast` is an input the module never looks at. */
  datatype Inputs = Inputs(
    rst: bool,
    awid: Id, awaddr: nat, awlen: Bits8, awsize: Bits3, awburst: Bits2, awvalid: bool,
    wdata: Word, wstrb: seq<bool>, wlast: bool, wvalid: bool,
    bready: bool,
    arid: Id, araddr: nat, arlen: Bits8, arsize: Bits3, arburst: Bits2, arvalid: bool,
    rready: bool)

  /** Every wire holds a value of its declared width. */
  predicate InputsFit(c: Config, i: Inputs) {
    && i.awaddr < AddrSpace(c) && i.araddr < AddrSpace(c)
    && |i.wdata| == Lanes(c) && |i.wstrb| == Lanes(c)
  }

  predicate MemoryFits(c: Config, mem: seq<Word>)
    requires Parameters(c)
  {
    && |mem| == Depth(c)
    && forall k :: 0 <= k < |mem| ==> |mem[k]| == Lanes(c)
  }

  predicate Fits(c: Config, s: State) {
    && Parameters(c)
    && s.w.addr < AddrSpace(c) && s.r.addr < AddrSpace(c)
    && MemoryFits(c, s.mem)
  }

  /** awsize or arsize clamped to the bus width; the comparison constant is cast to three bits. */
  function ClampSize(c: Config, size: Bits3): (r: Bits3)
    ensures r <= c.strbLog
    ensures size <= c.strbLog <= 7 ==> r == size
  {
    var full := c.strbLog % 8;
    if size < full then size else full
  }

  /** The upper VALID_ADDR_WIDTH bits of a byte address. */
  function WordIndex(c: Config, addr: nat): (k: nat)
    requires Parameters(c) && addr < AddrSpace(c)
    ensures k < Depth(c)
  {
    Pow2Add(c.strbLog, c.addrWidth - c.strbLog);
    assert addr % (Lanes(c) * Depth(c)) == addr by {
      DivModUnique(addr, 0, Lanes(c) * Depth(c), addr);
    }
    DivModProduct(addr, Lanes(c), Depth(c));
    addr / Lanes(c)
  }

  function Decrement(count: Bits8): Bits8 {
    if count == 0 then 255 else count - 1
  }

  /** The address after one beat: unchanged for a FIXED burst, wrapping at 2**ADDR_WIDTH otherwise. */
  function Advance(c: Config, addr: nat, size: Bits3, burst: Bits2): (r: nat)
    requires addr < AddrSpace(c)
    ensures r < AddrSpace(c)
  {
    if burst != 0 then (addr + Pow2(size)) % AddrSpace(c) else addr
  }

  function Merge(was: Word, data: Word, strb: seq<bool>): (r: Word)
    requires |was| == |data| == |strb|
    ensures |r| == |was|
  {
    seq(|was|, k requires 0 <= k < |was| => if strb[k] then data[k] else was[k])
  }

  // ---- Write channel ----

  predicate MemWrite(w: WriteRegs, i: Inputs) {
    w.fsm.Burst? && w.wready && i.wvalid
  }

  function WriteNext(c: Config, w: WriteRegs, i: Inputs): (n: WriteRegs)
    requires w.addr < AddrSpace(c) && InputsFit(c, i)
    ensures n.addr < AddrSpace(c)
  {
    var bHeld := w.bvalid && !i.bready;
    var d := w.(awready := false, wready := false, bvalid := bHeld);
    var respond := d.(fsm := Idle, awready := true, bid := w.id, bvalid := true);
    var n :=
      match w.fsm
      case Idle =>
        if w.awready && i.awvalid then
          d.(fsm := Burst, id := i.awid, addr := i.awaddr, count := i.awlen,
          size := ClampSize(c, i.awsize), burst := i.awburst, wready := true)
        else
          d.(awready := true)
      case Burst =>
        if w.wready && i.wvalid then
          var moved := Advance(c, w.addr, w.size, w.burst);
          if w.count > 0 then
            d.(addr := moved, count := Decrement(w.count), wready := true)
          else if i.bready || !w.bvalid then
            respond.(addr := moved, count := Decrement(w.count))
          else
            d.(fsm := Resp, addr := moved, count := Decrement(w.count))
        else
          d.(wready := true)
      case Resp =>
        if i.bready || !w.bvalid then respond else d;
    if i.rst then n.(fsm := Idle, awready := false, wready := false, bvalid := false) else n
  }

  function MemNext(c: Config, mem: seq<Word>, w: WriteRegs, i: Inputs): (m: seq<Word>)
    requires Parameters(c) && w.addr < AddrSpace(c) && MemoryFits(c, mem) && InputsFit(c, i)
    ensures MemoryFits(c, m)
  {
    if MemWrite(w, i) then
      var k := WordIndex(c, w.addr);
      mem[k := Merge(mem[k], i.wdata, i.wstrb)]
    else
      mem
  }

  // ---- Read channel ----

  /** The output register is emptied by this edge. */
  predicate OutputMoves(c: Config, r: ReadRegs, i: Inputs) {
    i.rready || (c.pipeline && !r.pipeValid)
  }

  predicate MemRead(c: Config, r: ReadRegs, i: Inputs) {
    r.fsm.ReadBurst? && (OutputMoves(c, r, i) || !r.rvalid)
  }

  /** `word` is what the memory holds, before this edge, at the word of `r.addr`. */
  function ReadNext(c: Config, r: ReadRegs, word: Word, i: Inputs): (n: ReadRegs)
    requires r.addr < AddrSpace(c) && InputsFit(c, i)
    ensures n.addr < AddrSpace(c)
  {
    var shift := !r.pipeValid || i.rready;
    var d := r.(arready := false, rvalid := r.rvalid && !OutputMoves(c, r, i),
    pipe := if shift then r.out else r.pipe,
    pipeValid := if shift then r.rvalid else r.pipeValid);
    var n :=
      match r.fsm
      case ReadIdle =>
        if r.arready && i.arvalid then
          d.(fsm := ReadBurst, id := i.arid, addr := i.araddr, count := i.arlen,
          size := ClampSize(c, i.arsize), burst := i.arburst)
        else
          d.(arready := true)
      case ReadBurst =>
        if MemRead(c, r, i) then
          d.(fsm := if r.count > 0 then ReadBurst else ReadIdle,
          arready := r.count == 0,
          rvalid := true,
          out := Beat(r.id, word, r.count == 0),
          addr := Advance(c, r.addr, r.size, r.burst),
          count := Decrement(r.count))
        else
          d;
    if i.rst then n.(fsm := ReadIdle, arready := false, rvalid := false, pipeValid := false) else n
  }

  // ---- The module ----

  /** One positive clock edge. */
  function Step(c: Config, s: State, i: Inputs): (n: State)
    requires Fits(c, s) && InputsFit(c, i)
    ensures Fits(c, n)
  {
    State(WriteNext(c, s.w, i), ReadNext(c, s.r, s.mem[WordIndex(c, s.r.addr)], i), MemNext(c, s.mem, s.w, i))
  }

  /** What an edge with `rst` high leaves behind, whatever came before; all else is unconstrained. */
  predicate AfterReset(s: State) {
    && s.w.fsm.Idle? && !s.w.awready && !s.w.wready && !s.w.bvalid
    && s.r.fsm.ReadIdle? && !s.r.arready && !s.r.rvalid && !s.r.pipeValid
  }

  predicate RunInputs(c: Config, ins: seq<Inputs>) {
    forall k :: 0 <= k < |ins| ==> InputsFit(c, ins[k]) && !ins[k].rst
  }

  /** The state after clocking in every element of `ins`, oldest first. */
  function Run(c: Config, s: State, ins: seq<Inputs>): (n: State)
    requires Fits(c, s) && RunInputs(c, ins)
    ensures Fits(c, n)
  {
    if ins == [] then s else Step(c, Run(c, s, ins[..|ins| - 1]), ins[|ins| - 1])
  }

  /** What the output wires show of the read data channel (the pipeline mux). */
  predicate RValid(c: Config, r: ReadRegs) {
    if c.pipeline then r.pipeValid else r.rvalid
  }

  function RBeat(c: Config, r: ReadRegs): Beat {
    if c.pipeline then r.pipe else r.out
  }

  /** The module: two banks of registers and the memory array, all updated at each edge. */
  class Ram {
    const c: Config
    const mem: array<Word>
    var w: WriteRegs
    var r: ReadRegs

    ghost function Regs(): State
      reads this, mem
    {
      State(w, r, mem[..])
    }

    ghost predicate Valid()
      reads this, mem
    {
      Fits(c, Regs())
    }

    /** Power-up: register initialisers and the loops that clear `mem`. */
    constructor (config: Config)
      requires Parameters(config)
      ensures c == config && Valid() && AfterReset(Regs()) && fresh(mem)
      ensures forall k :: 0 <= k < Depth(c) ==> Regs().mem[k] == seq(Lanes(c), _ => 0)
    {
      c := config;
      var zero := seq(Lanes(config), _ => 0);
      mem := new Word[Depth(config)](_ => zero);
      w := WriteRegs(Idle, 0, 0, 0, 0, 0, false, false, 0, false);
      var none := Beat(0, zero, false);
      r := ReadRegs(ReadIdle, 0, 0, 0, 0, 0, false, none, false, none, false);
    }

    /** One clock edge. Both blocks look at the registers and the memory as they were before the
        edge; the strobed lanes of one word are then overwritten. */
    method Clock(i: Inputs)
      requires Valid() && InputsFit(c, i)
      modifies this, mem
      ensures Valid() && Regs() == Step(c, old(Regs()), i)
    {
      ghost var before := Regs();
      var k := WordIndex(c, w.addr);
      var writes := w.fsm.Burst? && w.wready && i.wvalid;
      ReadEdge(i);
      WriteEdge(i);
      if writes {
        var lane := 0;
        while lane < Lanes(c)
          invariant 0 <= lane <= Lanes(c)
          invariant |mem[k]| == Lanes(c)
          invariant forall l :: 0 <= l < Lanes(c) ==>
            mem[k][l] == if l < lane && i.wstrb[l] then i.wdata[l] else before.mem[k][l]
          invariant forall j :: 0 <= j < mem.Length && j != k ==> mem[j] == before.mem[j]
          modifies mem
        {
          if i.wstrb[lane] {
            mem[k] := mem[k][lane := i.wdata[lane]];
          }
          lane := lane + 1;
        }
        assert mem[k] == Merge(before.mem[k], i.wdata, i.wstrb);
        assert mem[..] == MemNext(c, before.mem, before.w, i);
      }
    }

    /** The read block of the edge. */
    method ReadEdge(i: Inputs)
      requires Parameters(c) && r.addr < AddrSpace(c) && mem.Length == Depth(c) && InputsFit(c, i)
      modifies this`r
      ensures r == ReadNext(c, old(r), mem[WordIndex(c, old(r).addr)], i)
    {
      var moves := i.rready || (c.pipeline && !r.pipeValid);
      var n := r.(arready := false, rvalid := r.rvalid && !moves);

      match r.fsm {
        case ReadIdle =>
          n := n.(arready := true);
          if r.arready && i.arvalid {
            n := n.(id := i.arid, addr := i.araddr, count := i.arlen);
            n := n.(size := ClampSize(c, i.arsize), burst := i.arburst);
            n := n.(arready := false, fsm := ReadBurst);
          }
        case ReadBurst =>
          if moves || !r.rvalid {
            n := n.(rvalid := true);
            n := n.(out := Beat(r.id, mem[WordIndex(c, r.addr)], r.count == 0));
            if r.burst != 0 {
              n := n.(addr := (r.addr + Pow2(r.size)) % AddrSpace(c));
            }
            n := n.(count := Decrement(r.count));
            if r.count == 0 {
              n := n.(arready := true, fsm := ReadIdle);
            }
          }
      }

      if !r.pipeValid || i.rready {
        n := n.(pipe := r.out, pipeValid := r.rvalid);
      }
      if i.rst {
        n := n.(fsm := ReadIdle, arready := false, rvalid := false, pipeValid := false);
      }
      r := n;
    }

    /** The write block of the edge, apart from the memory array. */
    method WriteEdge(i: Inputs)
      requires w.addr < AddrSpace(c) && InputsFit(c, i)
      modifies this`w
      ensures w == WriteNext(c, old(w), i)
    {
      var n := w.(awready := false, wready := false, bvalid := w.bvalid && !i.bready);

      match w.fsm {
        case Idle =>
          n := n.(awready := true);
          if w.awready && i.awvalid {
            n := n.(id := i.awid, addr := i.awaddr, count := i.awlen);
            n := n.(size := ClampSize(c, i.awsize), burst := i.awburst);
            n := n.(awready := false, wready := true, fsm := Burst);
          }
        case Burst =>
          n := n.(wready := true);
          if w.wready && i.wvalid {
            if w.burst != 0 {
              n := n.(addr := (w.addr + Pow2(w.size)) % AddrSpace(c));
            }
            n := n.(count := Decrement(w.count));
            if w.count == 0 {
              n := n.(wready := false);
              if i.bready || !w.bvalid {
                n := n.(bid := w.id, bvalid := true, awready := true, fsm := Idle);
              } else {
                n := n.(fsm := Resp);
              }
            }
          }
        case Resp =>
          if i.bready || !w.bvalid {
            n := n.(bid := w.id, bvalid := true, awready := true, fsm := Idle);
          }
      }

      if i.rst {
        n := n.(fsm := Idle, awready := false, wready := false, bvalid := false);
      }
      w := n;
    }
  }
}
