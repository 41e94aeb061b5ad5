/** The read side of the RAM over whole runs: no read beat is lost, duplicated or reordered by the
    output register and the optional pipeline stage, whatever the master's stalls. */
module AxiRead {
  import opened AxiRam
  import opened AxiBurst

  /** A beat read from the memory, and the number of the edge that read it. */
  datatype Fetch = Fetch(edge: nat, beat: Beat)

  /** Requests accepted, beats read from the memory, beats handed over; each in order. */
  datatype Log = Log(ars: seq<Request>, fetched: seq<Fetch>, delivered: seq<Beat>)

  function Accepted(i: Inputs): Request {
    Request(i.arid, i.araddr, i.arlen, i.arsize, i.arburst)
  }

  function Observe(c: Config, log: Log, edge: nat, s: State, i: Inputs): Log
    requires Fits(c, s)
  {
    Log(log.ars + (if s.r.arready && i.arvalid then [Accepted(i)] else []),
        log.fetched + (if MemRead(c, s.r, i) then [Fetch(edge, FetchedBeat(c, s))] else []),
        log.delivered + (if RValid(c, s.r) && i.rready then [RBeat(c, s.r)] else []))
  }

  /** The beat an edge that reads the memory puts into the output register. */
  function FetchedBeat(c: Config, s: State): Beat
    requires Fits(c, s)
  {
    Beat(s.r.id, s.mem[WordIndex(c, s.r.addr)], s.r.count == 0)
  }

  function LogOf(c: Config, s: State, ins: seq<Inputs>): Log
    requires Fits(c, s) && RunInputs(c, ins)
  {
    if ins == [] then Log([], [], [])
    else
      var n := |ins| - 1;
      Observe(c, LogOf(c, s, ins[..n]), n, Run(c, s, ins[..n]), ins[n])
  }

  /** What a request asks for, beat by beat: its id, a word, and whether it is the final beat. */
  datatype Planned = Planned(id: Id, word: nat, last: bool)

  function BurstPlan(c: Config, q: Request): (ps: seq<Planned>)
    requires Parameters(c) && q.addr < AddrSpace(c)
    ensures |ps| == q.len + 1 && forall k :: 0 <= k < |ps| ==> ps[k].word < Depth(c)
  {
    seq(q.len + 1, k requires 0 <= k => Planned(q.id, BeatWord(c, q, k), k == q.len))
  }

  function Plan(c: Config, qs: seq<Request>): (ps: seq<Planned>)
    requires Parameters(c) && RequestsFit(c, qs)
    ensures forall k :: 0 <= k < |ps| ==> ps[k].word < Depth(c)
  {
    if qs == [] then [] else Plan(c, qs[..|qs| - 1]) + BurstPlan(c, qs[|qs| - 1])
  }

  lemma {:induction false} PlanCount(c: Config, qs: seq<Request>)
    requires Parameters(c) && RequestsFit(c, qs)
    ensures |Plan(c, qs)| == TotalBeats(qs)
  {
    if qs != [] {
      PlanCount(c, qs[..|qs| - 1]);
    }
  }

  lemma {:induction false} PlanSnoc(c: Config, qs: seq<Request>, q: Request)
    requires Parameters(c) && RequestsFit(c, qs) && q.addr < AddrSpace(c)
    ensures RequestsFit(c, qs + [q])
    ensures Plan(c, qs + [q]) == Plan(c, qs) + BurstPlan(c, q)
  {
    assert (qs + [q])[..|qs|] == qs;
  }

  function Beats(fs: seq<Fetch>): (bs: seq<Beat>)
    ensures |bs| == |fs|
  {
    seq(|fs|, k requires 0 <= k < |fs| => fs[k].beat)
  }

  /** Beats between the memory and the master, oldest first. Without the pipeline option the second
      stage still shifts, but nothing reads it. */
  function InFlight(c: Config, r: ReadRegs): seq<Beat> {
    (if c.pipeline && r.pipeValid then [r.pipe] else []) + (if r.rvalid then [r.out] else [])
  }

  function Owed(r: ReadRegs): nat {
    if r.fsm.ReadBurst? then r.count + 1 else 0
  }

  /** The memory just before each edge of a run. */
  ghost function Memories(c: Config, s: State, ins: seq<Inputs>): (ms: seq<seq<Word>>)
    requires Fits(c, s) && RunInputs(c, ins)
    ensures |ms| == |ins| && forall k :: 0 <= k < |ms| ==> MemoryFits(c, ms[k])
  {
    if ins == [] then []
    else
      var before := ins[..|ins| - 1];
      Memories(c, s, before) + [Run(c, s, before).mem]
  }

  lemma {:induction false} MemoryBeforeEdge(c: Config, s: State, ins: seq<Inputs>, t: nat)
    requires Fits(c, s) && RunInputs(c, ins) && t < |ins|
    ensures Memories(c, s, ins)[t] == Run(c, s, ins[..t]).mem
  {
    var before := ins[..|ins| - 1];
    if t < |before| {
      MemoryBeforeEdge(c, s, before, t);
      assert before[..t] == ins[..t];
      assert Memories(c, s, ins)[t] == Memories(c, s, before)[t];
    }
  }

  /** Fetch `f` carries out `p`: its id and last flag, and the word as it stood just before the
      fetching edge, so before any write that edge performs. */
  ghost predicate CarriesOut(mems: seq<seq<Word>>, f: Fetch, p: Planned) {
    && f.edge < |mems| && p.word < |mems[f.edge]|
    && f.beat == Beat(p.id, mems[f.edge][p.word], p.last)
  }

  /** The registers describe the last accepted request and point at its next beat. */
  predicate InBurst(c: Config, r: ReadRegs, ars: seq<Request>)
    requires RequestsFit(c, ars)
  {
    && ars != []
    && var q := ars[|ars| - 1];
    && r.count <= q.len && r.burst == q.burst && r.size == ClampSize(c, q.size) && r.id == q.id
    && r.addr == BeatAddr(c, q, q.len - r.count)
  }

  ghost predicate FetchesFollowPlan(mems: seq<seq<Word>>, plan: seq<Planned>,
                                    fetched: seq<Fetch>) {
    && |fetched| <= |plan|
    && (forall k :: 0 <= k < |fetched| ==> CarriesOut(mems, fetched[k], plan[k]))
    && (forall j, k :: 0 <= j < k < |fetched| ==> fetched[j].edge < fetched[k].edge)
  }

  /** The registers fit the requests accepted, `fetched` beats of which have been read. */
  predicate Control(c: Config, r: ReadRegs, ars: seq<Request>, fetched: nat)
    requires Parameters(c)
  {
    && RequestsFit(c, ars)
    && (r.arready ==> r.fsm.ReadIdle?)
    && (r.fsm.ReadBurst? ==> InBurst(c, r, ars))
    && fetched + Owed(r) == |Plan(c, ars)|
  }

  ghost predicate Tracks(c: Config, mems: seq<seq<Word>>, r: ReadRegs, log: Log)
    requires Parameters(c)
  {
    && Control(c, r, log.ars, |log.fetched|)
    && FetchesFollowPlan(mems, Plan(c, log.ars), log.fetched)
    && log.delivered + InFlight(c, r) == Beats(log.fetched)
  }

  /** The queue between memory and master gains the fetched beat and loses the delivered one. */
  lemma QueueEdge(c: Config, s: State, i: Inputs, delivered: seq<Beat>, fetched: seq<Beat>)
    requires Fits(c, s) && InputsFit(c, i) && !i.rst
    requires delivered + InFlight(c, s.r) == fetched
    ensures (delivered + (if RValid(c, s.r) && i.rready then [RBeat(c, s.r)] else []))
            + InFlight(c, Step(c, s, i).r)
            == fetched + (if MemRead(c, s.r, i) then [FetchedBeat(c, s)] else [])
  {
  }

  /** What was fetched stays justified when the run and the plan grow. */
  lemma FetchesKept(mems: seq<seq<Word>>, plan: seq<Planned>, fetched: seq<Fetch>,
                    mem: seq<Word>, more: seq<Planned>)
    requires FetchesFollowPlan(mems, plan, fetched)
    ensures FetchesFollowPlan(mems + [mem], plan + more, fetched)
  {
    forall k | 0 <= k < |fetched|
      ensures CarriesOut(mems + [mem], fetched[k], (plan + more)[k])
    {
      assert CarriesOut(mems, fetched[k], plan[k]);
    }
  }

  lemma AddressControl(c: Config, r: ReadRegs, word: Word, i: Inputs, ars: seq<Request>, fetched: nat)
    requires Parameters(c) && r.addr < AddrSpace(c) && InputsFit(c, i) && !i.rst
    requires Control(c, r, ars, fetched) && r.arready && i.arvalid
    ensures Control(c, ReadNext(c, r, word, i), ars + [Accepted(i)], fetched)
  {
    PlanSnoc(c, ars, Accepted(i));
    FirstBeat(c, Accepted(i));
  }

  /** An edge that accepts a request: the plan grows, nothing is fetched. */
  lemma AddressEdge(c: Config, mems: seq<seq<Word>>, s: State, i: Inputs, log: Log)
    requires Fits(c, s) && InputsFit(c, i) && !i.rst && Tracks(c, mems, s.r, log)
    requires s.r.arready && i.arvalid
    ensures Tracks(c, mems + [s.mem], Step(c, s, i).r, Observe(c, log, |mems|, s, i))
  {
    var q, log' := Accepted(i), Observe(c, log, |mems|, s, i);
    AddressControl(c, s.r, s.mem[WordIndex(c, s.r.addr)], i, log.ars, |log.fetched|);
    FetchesKept(mems, Plan(c, log.ars), log.fetched, s.mem, BurstPlan(c, q));
    PlanSnoc(c, log.ars, q);
    QueueEdge(c, s, i, log.delivered, Beats(log.fetched));
    assert log'.ars == log.ars + [q] && log'.fetched == log.fetched;
  }

  /** In BURST the next planned beat is the one the registers point at. */
  lemma {:induction false} NextPlanned(c: Config, r: ReadRegs, ars: seq<Request>)
    requires Parameters(c) && r.addr < AddrSpace(c) && RequestsFit(c, ars) && InBurst(c, r, ars)
    ensures var plan := Plan(c, ars); var next := |plan| - (r.count + 1);
            && 0 <= next < |plan|
            && plan[next] == Planned(r.id, WordIndex(c, r.addr), r.count == 0)
    ensures r.count > 0 ==>
              var q := ars[|ars| - 1];
              Advance(c, r.addr, r.size, r.burst) == BeatAddr(c, q, q.len - (r.count - 1))
  {
    var q := ars[|ars| - 1];
    NextBeat(c, q, q.len - r.count);
  }

  lemma FetchAdded(mems: seq<seq<Word>>, plan: seq<Planned>, fetched: seq<Fetch>,
                   mem: seq<Word>, beat: Beat)
    requires FetchesFollowPlan(mems, plan, fetched) && |fetched| < |plan|
    requires plan[|fetched|].word < |mem|
    requires beat == Beat(plan[|fetched|].id, mem[plan[|fetched|].word], plan[|fetched|].last)
    ensures FetchesFollowPlan(mems + [mem], plan, fetched + [Fetch(|mems|, beat)])
  {
    FetchesKept(mems, plan, fetched, mem, []);
    assert plan + [] == plan;
    assert CarriesOut(mems + [mem], Fetch(|mems|, beat), plan[|fetched|]);
    forall k | 0 <= k < |fetched|
      ensures fetched[k].edge < |mems|
    {
      assert CarriesOut(mems, fetched[k], plan[k]);
    }
  }

  lemma FetchControl(c: Config, r: ReadRegs, word: Word, i: Inputs, ars: seq<Request>, fetched: nat)
    requires Parameters(c) && r.addr < AddrSpace(c) && InputsFit(c, i) && !i.rst
    requires Control(c, r, ars, fetched) && MemRead(c, r, i)
    ensures Control(c, ReadNext(c, r, word, i), ars, fetched + 1)
  {
    NextPlanned(c, r, ars);
  }

  /** The beat fetched is the next one planned. */
  lemma {:induction false} FetchFollows(c: Config, mems: seq<seq<Word>>, s: State, ars: seq<Request>,
                                        fetched: seq<Fetch>)
    requires Fits(c, s) && Control(c, s.r, ars, |fetched|) && s.r.fsm.ReadBurst?
    requires FetchesFollowPlan(mems, Plan(c, ars), fetched)
    ensures FetchesFollowPlan(mems + [s.mem], Plan(c, ars), fetched + [Fetch(|mems|, FetchedBeat(c, s))])
  {
    NextPlanned(c, s.r, ars);
    FetchAdded(mems, Plan(c, ars), fetched, s.mem, FetchedBeat(c, s));
  }

  /** The queue after an edge that reads the memory. */
  lemma FetchQueue(c: Config, s: State, i: Inputs, delivered: seq<Beat>, fetched: seq<Fetch>, f: Fetch)
    requires Fits(c, s) && InputsFit(c, i) && !i.rst && MemRead(c, s.r, i)
    requires delivered + InFlight(c, s.r) == Beats(fetched) && f.beat == FetchedBeat(c, s)
    ensures (delivered + (if RValid(c, s.r) && i.rready then [RBeat(c, s.r)] else []))
            + InFlight(c, Step(c, s, i).r) == Beats(fetched + [f])
  {
    QueueEdge(c, s, i, delivered, Beats(fetched));
    assert Beats(fetched + [f]) == Beats(fetched) + [f.beat];
  }

  /** An edge that reads the memory. */
  lemma FetchEdge(c: Config, mems: seq<seq<Word>>, s: State, i: Inputs, log: Log)
    requires Fits(c, s) && InputsFit(c, i) && !i.rst && Tracks(c, mems, s.r, log)
    requires MemRead(c, s.r, i)
    ensures Tracks(c, mems + [s.mem], Step(c, s, i).r, Observe(c, log, |mems|, s, i))
  {
    var f, log' := Fetch(|mems|, FetchedBeat(c, s)), Observe(c, log, |mems|, s, i);
    FetchControl(c, s.r, s.mem[WordIndex(c, s.r.addr)], i, log.ars, |log.fetched|);
    FetchFollows(c, mems, s, log.ars, log.fetched);
    FetchQueue(c, s, i, log.delivered, log.fetched, f);
    assert log'.ars == log.ars && log'.fetched == log.fetched + [f];
  }

  lemma QuietControl(c: Config, r: ReadRegs, word: Word, i: Inputs, ars: seq<Request>, fetched: nat)
    requires Parameters(c) && r.addr < AddrSpace(c) && InputsFit(c, i) && !i.rst
    requires Control(c, r, ars, fetched) && !(r.arready && i.arvalid) && !MemRead(c, r, i)
    ensures Control(c, ReadNext(c, r, word, i), ars, fetched)
  {
  }

  /** Any other edge: waiting, or beats moving towards the master. */
  lemma QuietEdge(c: Config, mems: seq<seq<Word>>, s: State, i: Inputs, log: Log)
    requires Fits(c, s) && InputsFit(c, i) && !i.rst && Tracks(c, mems, s.r, log)
    requires !(s.r.arready && i.arvalid) && !MemRead(c, s.r, i)
    ensures Tracks(c, mems + [s.mem], Step(c, s, i).r, Observe(c, log, |mems|, s, i))
  {
    var log' := Observe(c, log, |mems|, s, i);
    QuietControl(c, s.r, s.mem[WordIndex(c, s.r.addr)], i, log.ars, |log.fetched|);
    FetchesKept(mems, Plan(c, log.ars), log.fetched, s.mem, []);
    assert Plan(c, log.ars) + [] == Plan(c, log.ars);
    QueueEdge(c, s, i, log.delivered, Beats(log.fetched));
    assert log'.ars == log.ars && log'.fetched == log.fetched;
  }

  lemma {:induction false} RunTracks(c: Config, s: State, ins: seq<Inputs>)
    requires Fits(c, s) && AfterReset(s) && RunInputs(c, ins)
    ensures Tracks(c, Memories(c, s, ins), Run(c, s, ins).r, LogOf(c, s, ins))
  {
    if ins == [] {
    } else {
      var n := |ins| - 1;
      RunTracks(c, s, ins[..n]);
      var mems, at, i, log :=
        Memories(c, s, ins[..n]), Run(c, s, ins[..n]), ins[n], LogOf(c, s, ins[..n]);
      if at.r.arready && i.arvalid {
        AddressEdge(c, mems, at, i, log);
      } else if MemRead(c, at.r, i) {
        FetchEdge(c, mems, at, i, log);
      } else {
        QuietEdge(c, mems, at, i, log);
      }
    }
  }

  // ---- What every run after reset guarantees ----

  /** For both pipeline settings and every stall pattern: the beats delivered, then those in flight,
      are exactly the beats read from the memory, and beat k of those carries out the k-th beat of
      the accepted bursts with the word as of some edge, later beats at later edges. */
  lemma {:induction false} ReadsDeliverTheBursts(c: Config, s: State, ins: seq<Inputs>)
    requires Fits(c, s) && AfterReset(s) && RunInputs(c, ins)
    ensures var log, r := LogOf(c, s, ins), Run(c, s, ins).r;
            && RequestsFit(c, log.ars)
            && log.delivered + InFlight(c, r) == Beats(log.fetched)
            && FetchesFollowPlan(Memories(c, s, ins), Plan(c, log.ars), log.fetched)
  {
    RunTracks(c, s, ins);
  }

  /** Each accepted request gets exactly len + 1 beats: those fetched and those still owed add up,
      and the next request is taken only when none are owed. */
  lemma {:induction false} BurstsGetTheirBeats(c: Config, s: State, ins: seq<Inputs>)
    requires Fits(c, s) && AfterReset(s) && RunInputs(c, ins)
    ensures var log, r := LogOf(c, s, ins), Run(c, s, ins).r;
            && |log.delivered| + |InFlight(c, r)| + Owed(r) == TotalBeats(log.ars)
            && (r.arready ==> |log.fetched| == TotalBeats(log.ars))
  {
    RunTracks(c, s, ins);
    PlanCount(c, LogOf(c, s, ins).ars);
  }

  /** Section A3.2.1 of ARM IHI 0022E for the R channel, from any state and for both pipeline
      settings: a beat that is not taken stays up unchanged however long the master waits. */
  lemma {:induction false} ReadBeatHeld(c: Config, s: State, ins: seq<Inputs>)
    requires Fits(c, s) && RunInputs(c, ins) && RValid(c, s.r)
    requires forall k :: 0 <= k < |ins| ==> !ins[k].rready
    ensures RValid(c, Run(c, s, ins).r) && RBeat(c, Run(c, s, ins).r) == RBeat(c, s.r)
  {
    if ins != [] {
      ReadBeatHeld(c, s, ins[..|ins| - 1]);
    }
  }
}
