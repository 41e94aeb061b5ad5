/** The read-request latch composed with the RAM: a held request reads one word over and over, and
    `rd_data` settles on it. */
module ReadLatch {
  import opened PowersOfTwo
  import opened AxiRam
  import opened SimTop

  /** The word a latched request names: 512 + addr_latch[8:0]. */
  function LatchedWord(g: GlueRegs): (k: nat)
    ensures k < Depth(RAM)
  {
    Sizes();
    0x200 + g.addrLatch % 0x200
  }

  lemma AddressNamesWord(g: GlueRegs, p: Pins)
    requires g.latched
    ensures ReadAddress(g, p) < AddrSpace(RAM) && WordIndex(RAM, ReadAddress(g, p)) == LatchedWord(g)
    ensures ReadAddress(g, p) / 4 == LatchedWord(g)
  {
    Sizes();
    DivModUnique(ReadAddress(g, p), 0x200 + g.addrLatch % 0x200, 4, 0);
  }

  // ---- Which request is latched, read off the pins ----

  /** The edge whose read request is being served after these cycles, if any: requests that come while one
      is are passed over, and a completion ends it. */
  function Standing(ps: seq<Pins>): (a: int)
    ensures -1 <= a < |ps|
  {
    if ps == [] then -1
    else
      var n := |ps| - 1;
      var a := Standing(ps[..n]);
      if a >= 0 then (if ps[n].complDone then -1 else a)
      else if ps[n].rxBeat1 && !ps[n].wrEn then n else -1
  }

  /** The same without recursion: request `a` stands exactly if none stood before it and no completion has
      come since. */
  lemma {:induction false} StandsIff(ps: seq<Pins>, a: nat)
    requires a < |ps|
    ensures Standing(ps) == a <==>
              && Standing(ps[..a]) == -1 && ps[a].rxBeat1 && !ps[a].wrEn
              && forall k :: a < k < |ps| ==> !ps[k].complDone
  {
    var n := |ps| - 1;
    if a < n {
      StandsIff(ps[..n], a);
      assert ps[..n][..a] == ps[..a];
    }
  }

  /** The latch holds the request that stands: set if and only if there is one, and then with its word and
      its tag, one above its address. */
  predicate LatchIs(g: GlueRegs, ps: seq<Pins>) {
    var a := Standing(ps);
    && (g.latched <==> a >= 0)
    && (a >= 0 ==> LatchedWord(g) == 0x200 + ps[a].rxAddr && g.tagLatch == (ps[a].rxAddr + 1) % 256)
  }

  /** One edge of the latch. */
  lemma LatchEdge(g: GlueRegs, wready: bool, p: Pins)
    requires p.rstN
    ensures var n := GlueNext(g, wready, p);
            if g.latched then
              n.latched == !p.complDone && (n.latched ==> LatchedWord(n) == LatchedWord(g) && n.tagLatch == g.tagLatch)
            else
              && n.latched == (p.rxBeat1 && !p.wrEn)
              && (n.latched ==> LatchedWord(n) == 0x200 + p.rxAddr && n.tagLatch == (p.rxAddr + 1) % 256)
  {
  }

  lemma {:induction false} LatchIsNext(g: GlueRegs, n: GlueRegs, wready: bool, ps: seq<Pins>)
    requires ps != [] && ps[|ps| - 1].rstN && LatchIs(g, ps[..|ps| - 1])
    requires n == GlueNext(g, wready, ps[|ps| - 1])
    ensures LatchIs(n, ps)
  {
    LatchEdge(g, wready, ps[|ps| - 1]);
    hide GlueNext, LatchedWord;
  }

  /** In every run from reset. */
  lemma {:induction false} LatchFollowsRequests(t: Top, ps: seq<Pins>)
    requires TopFits(t) && TopAfterReset(t) && OutOfReset(ps)
    ensures LatchIs(TopRun(t, ps).g, ps)
  {
    if ps != [] {
      var n := |ps| - 1;
      LatchFollowsRequests(t, ps[..n]);
      var was := TopRun(t, ps[..n]);
      assert TopRun(t, ps).g == GlueNext(was.g, was.ram.w.wready, ps[n]);
      hide TopRun, LatchIs, GlueNext;
      LatchIsNext(was.g, TopRun(t, ps).g, was.ram.w.wready, ps);
    }
  }

  /** The latch and the RAM's read address are those of the request on these pins. */
  ghost predicate Serves(g: GlueRegs, p: Pins) {
    && g.latched && g.tagLatch == (p.rxAddr + 1) % 256
    && forall now :: ReadAddress(g, now) / 4 == 0x200 + p.rxAddr
  }

  /** A request that finds the latch clear is latched with its own word and tag, keeps both until the first
      completion after it, and is gone then. */
  lemma {:induction false} RequestIsServed(t: Top, ps: seq<Pins>, a: nat, b: nat)
    requires TopFits(t) && TopAfterReset(t) && OutOfReset(ps) && a < b <= |ps|
    requires !TopRun(t, ps[..a]).g.latched && ps[a].rxBeat1 && !ps[a].wrEn
    requires forall k :: a < k < b ==> !ps[k].complDone
    ensures Serves(TopRun(t, ps[..b]).g, ps[a])
    ensures b < |ps| && ps[b].complDone ==> !TopRun(t, ps[..b + 1]).g.latched
  {
    hide TopRun, LatchedWord, Standing, ReadAddress;
    LatchFollowsRequests(t, ps[..a]);
    LatchFollowsRequests(t, ps[..b]);
    assert ps[..b][..a] == ps[..a];
    StandsIff(ps[..b], a);
    assert ps[..b][a] == ps[a];
    var g := TopRun(t, ps[..b]).g;
    forall now ensures ReadAddress(g, now) / 4 == 0x200 + ps[a].rxAddr {
      AddressNamesWord(g, now);
    }
    if b < |ps| && ps[b].complDone {
      LatchFollowsRequests(t, ps[..b + 1]);
      CompletionClears(ps, b);
    }
  }

  /** The RAM's port, in every run from reset: a read address is offered exactly while a request stands or
      the undriven gate happens to be up, and it is that request's, one beat of one word; write address and
      data are offered together, exactly while the envelope is full or wr_en is up. */
  lemma {:induction false} RamDrivenByRequests(t: Top, ps: seq<Pins>, now: Pins)
    requires TopFits(t) && TopAfterReset(t) && OutOfReset(ps)
    ensures var g, a := TopRun(t, ps).g, Standing(ps); var i := RamPins(g, now);
            && (i.arvalid <==> a >= 0 || now.tailGate)
            && (a >= 0 ==> i.araddr == 0x800 + 4 * ps[a].rxAddr) && i.arlen == 0 && i.rready
            && (i.awvalid <==> g.wActive || now.wrEn) && (i.wvalid <==> i.awvalid) && i.awlen == 0 && i.bready
            && i.awaddr == 4 * (if g.wActive then g.wAddr else now.wrAddr)
            && i.wdata == (if g.wActive then g.wData else now.wrData) && i.wstrb == [true, true, true, true]
  {
    LatchFollowsRequests(t, ps);
    hide TopRun, Standing;
  }

  lemma {:induction false} CompletionClears(ps: seq<Pins>, b: nat)
    requires b < |ps| && ps[b].complDone && Standing(ps[..b]) >= 0
    ensures Standing(ps[..b + 1]) == -1
  {
    assert ps[..b + 1][..b] == ps[..b];
  }

  /** What the read side can look like after reset: single-beat bursts only. */
  predicate ReadShape(r: ReadRegs) {
    && (r.arready ==> r.fsm.ReadIdle?)
    && (r.fsm.ReadBurst? ==> r.count == 0)
  }

  lemma {:induction false} ReadShapeKept(t: Top, ps: seq<Pins>)
    requires TopFits(t) && ReadShape(t.ram.r)
    ensures ReadShape(TopRun(t, ps).ram.r)
  {
    if ps != [] {
      ReadShapeKept(t, ps[..|ps| - 1]);
    }
  }

  /** The completion that would release the latch does not come. */
  predicate Held(ps: seq<Pins>) {
    forall k :: 0 <= k < |ps| ==> ps[k].rstN && !ps[k].complDone
  }

  /** While the latch is held it keeps its request and the RAM read address is constant, whatever
      else happens on the pins. */
  lemma {:induction false} AddressConstantWhileHeld(t: Top, ps: seq<Pins>)
    requires TopFits(t) && t.g.latched && Held(ps)
    ensures var g := TopRun(t, ps).g;
            && g.latched && g.addrLatch == t.g.addrLatch && g.tagLatch == t.g.tagLatch
            && forall p, p' :: ReadAddress(g, p) == ReadAddress(t.g, p')
  {
    if ps != [] {
      AddressConstantWhileHeld(t, ps[..|ps| - 1]);
    }
  }

  /** `rd_data` is the latched word as the memory held it before one of the last two edges. */
  predicate Fresh(t0: Top, t1: Top, t2: Top)
    requires TopFits(t0) && TopFits(t1)
  {
    var k := LatchedWord(t2.g);
    t2.ram.r.out.data == t1.ram.mem[k] || t2.ram.r.out.data == t0.ram.mem[k]
  }

  /** One held cycle, by the state of the read machine. */
  lemma HeldEdge(t: Top, p: Pins)
    requires TopFits(t) && ReadShape(t.ram.r) && t.g.latched && p.rstN && !p.complDone
    ensures var n := TopStep(t, p);
            && ReadShape(n.ram.r) && n.g.latched && LatchedWord(n.g) == LatchedWord(t.g)
            && match t.ram.r.fsm
               case ReadIdle =>
                 && n.ram.r.out.data == t.ram.r.out.data
                 && (if t.ram.r.arready then
                       && n.ram.r.fsm.ReadBurst?
                       && WordIndex(RAM, n.ram.r.addr) == LatchedWord(t.g)
                     else
                       n.ram.r.fsm.ReadIdle? && n.ram.r.arready)
               case ReadBurst =>
                 && n.ram.r.fsm.ReadIdle? && n.ram.r.arready
                 && n.ram.r.out.data == t.ram.mem[WordIndex(RAM, t.ram.r.addr)]
  {
    AddressNamesWord(t.g, p);
  }

  /** Three held cycles are enough, from every state the read machine can be in: just reset, idle,
      or in the middle of a burst at another address. */
  lemma ThreeHeldCycles(t: Top, t1: Top, t2: Top, t3: Top, p0: Pins, p1: Pins, p2: Pins)
    requires TopFits(t) && ReadShape(t.ram.r) && t.g.latched
    requires p0.rstN && !p0.complDone && p1.rstN && !p1.complDone && p2.rstN && !p2.complDone
    requires t1 == TopStep(t, p0) && t2 == TopStep(t1, p1) && t3 == TopStep(t2, p2)
    ensures Fresh(t1, t2, t3)
  {
    HeldEdge(t, p0);
    HeldEdge(t1, p1);
    HeldEdge(t2, p2);
  }

  lemma {:induction false} StepAt(t: Top, ps: seq<Pins>, k: nat)
    requires TopFits(t) && k < |ps|
    ensures TopRun(t, ps[..k + 1]) == TopStep(TopRun(t, ps[..k]), ps[k])
  {
    assert ps[..k + 1][..k] == ps[..k];
  }

  /** The state three cycles before the end of a held run. */
  lemma ThreeBefore(s: Top, held: seq<Pins>) returns (at: Top)
    requires TopFits(s) && ReadShape(s.ram.r) && s.g.latched && Held(held) && |held| >= 3
    ensures TopFits(at) && ReadShape(at.ram.r) && at.g.latched
    ensures var n := |held|; at == TopRun(s, held[..n - 3])
  {
    var early := held[..|held| - 3];
    at := TopRun(s, early);
    ReadShapeKept(s, early);
    AddressConstantWhileHeld(s, early);
  }

  lemma {:induction false} FreshAfterThree(s: Top, held: seq<Pins>)
    requires TopFits(s) && ReadShape(s.ram.r) && s.g.latched && Held(held) && |held| >= 3
    ensures var n := |held|;
            Fresh(TopRun(s, held[..n - 2]), TopRun(s, held[..n - 1]), TopRun(s, held[..n]))
  {
    hide TopRun, TopStep, Fresh, ReadShape;
    var n := |held|;
    var at := ThreeBefore(s, held);
    StepAt(s, held, n - 3);
    StepAt(s, held, n - 2);
    StepAt(s, held, n - 1);
    ThreeHeldCycles(at, TopRun(s, held[..n - 2]), TopRun(s, held[..n - 1]), TopRun(s, held[..n]),
                    held[n - 3], held[n - 2], held[n - 1]);
  }

  /** From any state reachable after reset with the latch set: once the latch has been held for three
      cycles, `rd_data` is never older than two edges. It equals the latched word whenever that
      word was not written in the last two cycles, so it stays equal until the word is written. */
  lemma {:induction false} LatchedWordArrives(t: Top, before: seq<Pins>, held: seq<Pins>)
    requires TopFits(t) && TopAfterReset(t) && TopRun(t, before).g.latched
    requires Held(held) && |held| >= 3
    ensures var n, s := |held|, TopRun(t, before);
            var t0, t1, t2 := TopRun(s, held[..n - 2]), TopRun(s, held[..n - 1]), TopRun(s, held);
            var k := LatchedWord(s.g);
            && LatchedWord(t2.g) == k
            && Fresh(t0, t1, t2)
            && (t0.ram.mem[k] == t1.ram.mem[k] == t2.ram.mem[k] ==> t2.ram.r.out.data == t2.ram.mem[k])
  {
    ReadShapeKept(t, before);
    FreshAfterThree(TopRun(t, before), held);
    AddressConstantWhileHeld(TopRun(t, before), held);
    assert held[..|held|] == held;
  }
}
