/** What the RAM owes its master in time: neither valid nor ready waits for the other side longer than it
    must. Handshakes and edges are counted off the ports. */
module AxiProgress {
  import opened AxiRam
  import opened AxiBurst
  import Reads = AxiRead
  import Writes = AxiWrite

  // ---- Read channel ----

  /** Beats asked for and not handed over, once these inputs have been clocked in. */
  function Outstanding(c: Config, s: State, ins: seq<Inputs>): int
    requires Fits(c, s) && RunInputs(c, ins)
  {
    var log := Reads.LogOf(c, s, ins);
    TotalBeats(log.ars) - |log.delivered|
  }

  lemma {:induction false} OutstandingIs(c: Config, s: State, ins: seq<Inputs>)
    requires Fits(c, s) && AfterReset(s) && RunInputs(c, ins)
    ensures var r := Run(c, s, ins).r;
            Outstanding(c, s, ins) == |Reads.InFlight(c, r)| + Reads.Owed(r) >= 0
  {
    Reads.BurstsGetTheirBeats(c, s, ins);
  }

  lemma {:induction false} RunSnoc(c: Config, s: State, ins: seq<Inputs>, i: Inputs)
    requires Fits(c, s) && RunInputs(c, ins + [i])
    ensures RunInputs(c, ins) && InputsFit(c, i) && !i.rst
    ensures Run(c, s, ins + [i]) == Step(c, Run(c, s, ins), i)
    ensures Reads.LogOf(c, s, ins + [i]) ==
            Reads.Observe(c, Reads.LogOf(c, s, ins), |ins|, Run(c, s, ins), i)
    ensures Writes.LogOf(c, s, ins + [i]) == Writes.Observe(Writes.LogOf(c, s, ins), Run(c, s, ins).w, i)
  {
    var all := ins + [i];
    assert all[..|ins|] == ins && all[|ins|] == i;
    assert InputsFit(c, all[|ins|]);
    forall k | 0 <= k < |ins| ensures InputsFit(c, ins[k]) && !ins[k].rst {
      assert InputsFit(c, all[k]) && !all[k].rst;
    }
  }

  /** One edge: data in the output register shows at once or moves to the stage that shows; a burst in
      progress with nothing to show fetches, whatever rready does. */
  lemma ValidNext(c: Config, r: ReadRegs, word: Word, i: Inputs)
    requires r.addr < AddrSpace(c) && InputsFit(c, i) && !i.rst && !RValid(c, r)
    ensures var n := ReadNext(c, r, word, i);
            && (r.rvalid ==> RValid(c, n))
            && (!r.rvalid && r.fsm.ReadBurst? ==> n.rvalid && (RValid(c, n) || c.pipeline))
  {
  }

  /** RVALID does not wait for RREADY (section A3.2.1 of ARM IHI 0022E): in every run from reset, as long
      as a beat that was asked for has not been handed over, RVALID is up, or will be after one more edge,
      or two with the output pipeline, whatever the master does. And it is up only then. */
  lemma {:induction false} DataComesUnasked(c: Config, s: State, ins: seq<Inputs>, i0: Inputs, i1: Inputs)
    requires Fits(c, s) && AfterReset(s) && RunInputs(c, ins + [i0] + [i1])
    ensures RunInputs(c, ins) && RunInputs(c, ins + [i0])
    ensures Outstanding(c, s, ins) > 0 ==>
              || RValid(c, Run(c, s, ins).r)
              || RValid(c, Run(c, s, ins + [i0]).r)
              || (c.pipeline && RValid(c, Run(c, s, ins + [i0] + [i1]).r))
    ensures RValid(c, Run(c, s, ins).r) ==> Outstanding(c, s, ins) > 0
  {
    RunSnoc(c, s, ins + [i0], i1);
    RunSnoc(c, s, ins, i0);
    OutstandingIs(c, s, ins);
    hide Run, Reads.LogOf, ReadNext, Outstanding;
    var a, b := Run(c, s, ins), Run(c, s, ins + [i0]);
    if !RValid(c, a.r) {
      ValidNext(c, a.r, a.mem[WordIndex(c, a.r.addr)], i0);
      if !RValid(c, b.r) {
        ValidNext(c, b.r, b.mem[WordIndex(c, b.r.addr)], i1);
      }
    }
  }

  /** Edges with rready high until the m-th outstanding beat has been handed over: one a beat, and one more
      for each stage that is still empty. */
  function Need(c: Config, r: ReadRegs, m: nat): nat {
    if m == 0 then 0
    else if !c.pipeline then (if r.rvalid then m else m + 1)
    else if r.pipeValid then (if r.rvalid || m == 1 then m else m + 1)
    else if r.rvalid then m + 1 else m + 2
  }

  /** Each such edge brings the beat one nearer. */
  lemma NeedFalls(c: Config, r: ReadRegs, word: Word, i: Inputs, m: nat)
    requires r.addr < AddrSpace(c) && InputsFit(c, i) && !i.rst && i.rready
    requires 0 < m <= |Reads.InFlight(c, r)| + Reads.Owed(r)
    ensures var n, m' := ReadNext(c, r, word, i), if RValid(c, r) then m - 1 else m;
            Need(c, n, m') == Need(c, r, m) - 1
  {
  }

  lemma {:induction false} AskedSnoc(c: Config, s: State, ins: seq<Inputs>, i: Inputs)
    requires Fits(c, s) && RunInputs(c, ins) && RunInputs(c, ins + [i])
    ensures var log, log' := Reads.LogOf(c, s, ins), Reads.LogOf(c, s, ins + [i]);
            && TotalBeats(log.ars) <= TotalBeats(log'.ars)
            && |log'.delivered| == |log.delivered| + if RValid(c, Run(c, s, ins).r) && i.rready then 1 else 0
  {
    RunSnoc(c, s, ins, i);
    var ars := Reads.LogOf(c, s, ins).ars;
    hide Run, Reads.LogOf, Step;
    if Run(c, s, ins).r.arready && i.arvalid {
      assert (ars + [Reads.Accepted(i)])[..|ars|] == ars;
    } else {
      assert ars + [] == ars;
    }
  }

  predicate AllReady(ins: seq<Inputs>) {
    forall k :: 0 <= k < |ins| ==> ins[k].rready
  }

  /** One ready edge of a run. */
  lemma {:induction false} ReadyEdge(c: Config, s: State, ins: seq<Inputs>, i: Inputs, m: nat)
    requires Fits(c, s) && AfterReset(s) && RunInputs(c, ins) && RunInputs(c, ins + [i]) && i.rready
    requires 0 < m <= Outstanding(c, s, ins)
    ensures var m' := if RValid(c, Run(c, s, ins).r) then m - 1 else m;
            && |Reads.LogOf(c, s, ins + [i]).delivered| == |Reads.LogOf(c, s, ins).delivered| + (m - m')
            && m' <= Outstanding(c, s, ins + [i])
            && Need(c, Run(c, s, ins + [i]).r, m') == Need(c, Run(c, s, ins).r, m) - 1
  {
    RunSnoc(c, s, ins, i);
    AskedSnoc(c, s, ins, i);
    OutstandingIs(c, s, ins);
    var at := Run(c, s, ins);
    NeedFalls(c, at.r, at.mem[WordIndex(c, at.r.addr)], i, m);
    hide Run, Reads.LogOf, Need, ReadNext;
  }

  lemma RunInputsFirst(c: Config, before: seq<Inputs>, ready: seq<Inputs>)
    requires RunInputs(c, before + ready) && ready != []
    ensures RunInputs(c, before + [ready[0]]) && before + ready == (before + [ready[0]]) + ready[1..]
  {
    var one := before + [ready[0]];
    forall k | 0 <= k < |one| ensures InputsFit(c, one[k]) && !one[k].rst {
      assert one[k] == (before + ready)[k];
    }
  }

  /** All that was asked for up to some moment of a run is handed over in as many ready edges as beats, and
      one more, or two with the output pipeline, whatever else is asked for in the meantime. */
  lemma {:induction false} ReadyEdgesDeliver(c: Config, s: State, before: seq<Inputs>, ready: seq<Inputs>, m: nat)
    requires Fits(c, s) && AfterReset(s) && RunInputs(c, before) && RunInputs(c, before + ready) && AllReady(ready)
    requires m <= Outstanding(c, s, before)
    requires |ready| >= Need(c, Run(c, s, before).r, m)
    ensures |Reads.LogOf(c, s, before + ready).delivered| >= |Reads.LogOf(c, s, before).delivered| + m
    decreases |ready|
  {
    if ready == [] || m == 0 {
      DeliveredGrows(c, s, before, ready);
    } else {
      hide Run, Reads.LogOf, Need, Outstanding, RunInputs;
      RunInputsFirst(c, before, ready);
      ReadyEdge(c, s, before, ready[0], m);
      ReadyEdgesDeliver(c, s, before + [ready[0]], ready[1..], if RValid(c, Run(c, s, before).r) then m - 1 else m);
    }
  }

  lemma {:induction false} DeliveredGrows(c: Config, s: State, before: seq<Inputs>, more: seq<Inputs>)
    requires Fits(c, s) && RunInputs(c, before) && RunInputs(c, before + more)
    ensures |Reads.LogOf(c, s, before).delivered| <= |Reads.LogOf(c, s, before + more).delivered|
    decreases |more|
  {
    if more == [] {
      assert before + more == before;
    } else {
      var n := |more| - 1;
      assert before + more == (before + more[..n]) + [more[n]];
      RunSnoc(c, s, before + more[..n], more[n]);
      AskedSnoc(c, s, before + more[..n], more[n]);
      DeliveredGrows(c, s, before, more[..n]);
    }
  }

  lemma NeedAtMost(c: Config, r: ReadRegs, m: nat)
    ensures Need(c, r, m) <= m + if c.pipeline then 2 else 1
  {
  }

  /** A request just accepted, with everything before it: len + 1 beats and what else is outstanding take at
      most that many ready edges and the depth of the output. */
  lemma {:induction false} ReadsCompleteInTime(c: Config, s: State, before: seq<Inputs>, ready: seq<Inputs>)
    requires Fits(c, s) && AfterReset(s) && RunInputs(c, before) && RunInputs(c, before + ready) && AllReady(ready)
    requires |ready| >= Outstanding(c, s, before) + if c.pipeline then 2 else 1
    ensures |Reads.LogOf(c, s, before + ready).delivered| >= TotalBeats(Reads.LogOf(c, s, before).ars)
  {
    OutstandingIs(c, s, before);
    var m := Outstanding(c, s, before);
    NeedAtMost(c, Run(c, s, before).r, m);
    ReadyEdgesDeliver(c, s, before, ready, m);
  }

  /** After the first edge out of reset a read address is accepted exactly when every beat asked for has
      been fetched. */
  lemma {:induction false} ReadAddressAccepted(c: Config, s: State, ins: seq<Inputs>)
    requires Fits(c, s) && AfterReset(s) && RunInputs(c, ins) && ins != []
    ensures var log := Reads.LogOf(c, s, ins);
            Run(c, s, ins).r.arready <==> |log.fetched| == TotalBeats(log.ars)
  {
    ReadyWhenIdle(c, s, ins);
    Reads.RunTracks(c, s, ins);
    Reads.PlanCount(c, Reads.LogOf(c, s, ins).ars);
  }

  lemma IdleNext(c: Config, s: State, i: Inputs)
    requires Fits(c, s) && InputsFit(c, i) && !i.rst
    requires (s.r.arready ==> s.r.fsm.ReadIdle?) && (s.w.awready ==> s.w.fsm.Idle?)
    ensures var n := Step(c, s, i);
            (n.r.arready <==> n.r.fsm.ReadIdle?) && (n.w.awready <==> n.w.fsm.Idle?)
  {
  }

  lemma {:induction false} ReadyWhenIdle(c: Config, s: State, ins: seq<Inputs>)
    requires Fits(c, s) && AfterReset(s) && RunInputs(c, ins)
    ensures var n := Run(c, s, ins);
            && (n.r.arready ==> n.r.fsm.ReadIdle?) && (n.w.awready ==> n.w.fsm.Idle?)
            && (ins != [] ==> (n.r.arready <==> n.r.fsm.ReadIdle?) && (n.w.awready <==> n.w.fsm.Idle?))
  {
    if ins != [] {
      var n := |ins| - 1;
      ReadyWhenIdle(c, s, ins[..n]);
      IdleNext(c, Run(c, s, ins[..n]), ins[n]);
    }
  }

  // ---- Write channel ----

  /** Bursts all of whose data has been taken. */
  function Finished(log: Writes.Log): int {
    |log.aws| - if |log.ws| < TotalBeats(log.aws) then 1 else 0
  }

  /** BVALID does not wait for BREADY: in every run from reset it is up exactly while some burst all of
      whose data has been taken has no response taken; at most two have. */
  lemma {:induction false} ResponseComesUnasked(c: Config, s: State, ins: seq<Inputs>)
    requires Fits(c, s) && AfterReset(s) && RunInputs(c, ins)
    ensures var log := Writes.LogOf(c, s, ins);
            && (Run(c, s, ins).w.bvalid <==> |log.bs| < Finished(log))
            && |log.bs| <= Finished(log) <= |log.bs| + 2
  {
    Writes.ResponsesFollowRequests(c, s, ins);
    Writes.BurstsTakeTheirBeats(c, s, ins);
  }

  /** After the first edge out of reset a write address is accepted exactly when all data asked for has
      been taken and at most one response is outstanding: so at once when the responses are taken. */
  lemma {:induction false} WriteAddressAccepted(c: Config, s: State, ins: seq<Inputs>)
    requires Fits(c, s) && AfterReset(s) && RunInputs(c, ins) && ins != []
    ensures var log := Writes.LogOf(c, s, ins);
            Run(c, s, ins).w.awready <==> |log.ws| == TotalBeats(log.aws) && |log.aws| <= |log.bs| + 1
  {
    ReadyWhenIdle(c, s, ins);
    Writes.ResponsesFollowRequests(c, s, ins);
    Writes.BurstsTakeTheirBeats(c, s, ins);
  }
}
