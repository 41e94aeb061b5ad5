/** The write side of the RAM over whole runs: `mem` against the bursts the master asked for, the
    length of every burst, and the write responses. */
module AxiWrite {
  import opened AxiRam
  import opened AxiBurst

  datatype DataBeat = DataBeat(data: Word, strb: seq<bool>)

  /** Everything handshaken on the write channels so far, in order. */
  datatype Log = Log(aws: seq<Request>, ws: seq<DataBeat>, bs: seq<Id>)

  function Accepted(i: Inputs): Request {
    Request(i.awid, i.awaddr, i.awlen, i.awsize, i.awburst)
  }

  /** The handshakes of one edge, read off the ports only. */
  function Observe(log: Log, w: WriteRegs, i: Inputs): Log {
    Log(log.aws + (if w.awready && i.awvalid then [Accepted(i)] else []),
        log.ws + (if w.wready && i.wvalid then [DataBeat(i.wdata, i.wstrb)] else []),
        log.bs + (if w.bvalid && i.bready then [w.bid] else []))
  }

  function LogOf(c: Config, s: State, ins: seq<Inputs>): Log
    requires Fits(c, s) && RunInputs(c, ins)
  {
    if ins == [] then Log([], [], [])
    else
      var before := ins[..|ins| - 1];
      Observe(LogOf(c, s, before), Run(c, s, before).w, ins[|ins| - 1])
  }

  predicate BeatFits(c: Config, b: DataBeat) {
    |b.data| == Lanes(c) && |b.strb| == Lanes(c)
  }

  predicate BeatsFit(c: Config, ws: seq<DataBeat>) {
    forall k :: 0 <= k < |ws| ==> BeatFits(c, ws[k])
  }

  /** The words of one burst, one per beat: len + 1 of them. */
  function BurstWords(c: Config, q: Request): (ws: seq<nat>)
    requires Parameters(c) && q.addr < AddrSpace(c)
    ensures |ws| == q.len + 1 && forall k :: 0 <= k < |ws| ==> ws[k] < Depth(c)
  {
    seq(q.len + 1, k requires 0 <= k => BeatWord(c, q, k))
  }

  /** The words of a sequence of bursts, concatenated. */
  function Words(c: Config, qs: seq<Request>): (ws: seq<nat>)
    requires Parameters(c) && RequestsFit(c, qs)
    ensures forall k :: 0 <= k < |ws| ==> ws[k] < Depth(c)
  {
    if qs == [] then [] else Words(c, qs[..|qs| - 1]) + BurstWords(c, qs[|qs| - 1])
  }

  /** One data beat merged, under its strobes, into word `k`. */
  function StoreOne(c: Config, m: seq<Word>, k: nat, b: DataBeat): (r: seq<Word>)
    requires Parameters(c) && MemoryFits(c, m) && BeatFits(c, b) && k < Depth(c)
    ensures MemoryFits(c, r)
  {
    m[k := Merge(m[k], b.data, b.strb)]
  }

  /** A plain memory: data beat k goes into word `words[k]`, oldest first. */
  function Store(c: Config, mem: seq<Word>, words: seq<nat>, ws: seq<DataBeat>): (m: seq<Word>)
    requires Parameters(c) && MemoryFits(c, mem) && BeatsFit(c, ws) && |ws| <= |words|
    requires forall k :: 0 <= k < |words| ==> words[k] < Depth(c)
    ensures MemoryFits(c, m)
  {
    if ws == [] then mem
    else
      var n := |ws| - 1;
      StoreOne(c, Store(c, mem, words, ws[..n]), words[n], ws[n])
  }

  function Ids(qs: seq<Request>): (ids: seq<Id>)
    ensures |ids| == |qs|
  {
    seq(|qs|, k requires 0 <= k < |qs| => qs[k].id)
  }

  /** Data beats still owed to the burst in progress. */
  function Owed(w: WriteRegs): nat {
    if w.fsm.Burst? then w.count + 1 else 0
  }

  /** The response waiting for bready, then the id of the burst whose response is not yet formed. */
  function Unanswered(w: WriteRegs): seq<Id> {
    (if w.bvalid then [w.bid] else []) + (if w.fsm.Idle? then [] else [w.id])
  }

  predicate Control(c: Config, w: WriteRegs, log: Log)
    requires Parameters(c)
  {
    && RequestsFit(c, log.aws) && BeatsFit(c, log.ws)
    && (w.wready <==> w.fsm.Burst?)
    && (w.awready ==> w.fsm.Idle?)
    && (w.fsm.Resp? ==> w.bvalid)
    && |log.ws| + Owed(w) == |Words(c, log.aws)|
    && log.bs + Unanswered(w) == Ids(log.aws)
    && (w.fsm.Burst? ==> InBurst(c, w, log.aws))
  }

  ghost predicate Tracks(c: Config, m0: seq<Word>, s: State, log: Log)
    requires Fits(c, s) && MemoryFits(c, m0)
  {
    && Control(c, s.w, log)
    && s.mem == Store(c, m0, Words(c, log.aws), log.ws)
  }

  /** The registers describe the last accepted request and point at its next beat. */
  predicate InBurst(c: Config, w: WriteRegs, aws: seq<Request>)
    requires RequestsFit(c, aws)
  {
    && aws != []
    && var q := aws[|aws| - 1];
    && w.count <= q.len && w.burst == q.burst && w.size == ClampSize(c, q.size)
    && w.addr == BeatAddr(c, q, q.len - w.count)
  }

  lemma {:induction false} WordsSnoc(c: Config, qs: seq<Request>, q: Request)
    requires Parameters(c) && RequestsFit(c, qs) && q.addr < AddrSpace(c)
    ensures RequestsFit(c, qs + [q])
    ensures Words(c, qs + [q]) == Words(c, qs) + BurstWords(c, q)
  {
    assert (qs + [q])[..|qs|] == qs;
  }

  /** Planning further bursts does not change what the beats already taken stored. */
  lemma {:induction false} StoreIgnoresLaterWords(c: Config, m0: seq<Word>, words: seq<nat>,
                                                  more: seq<nat>, ws: seq<DataBeat>)
    requires Parameters(c) && MemoryFits(c, m0) && BeatsFit(c, ws) && |ws| <= |words|
    requires forall k :: 0 <= k < |words| ==> words[k] < Depth(c)
    requires forall k :: 0 <= k < |more| ==> more[k] < Depth(c)
    ensures forall k :: 0 <= k < |words + more| ==> (words + more)[k] < Depth(c)
    ensures Store(c, m0, words + more, ws) == Store(c, m0, words, ws)
  {
    if ws != [] {
      StoreIgnoresLaterWords(c, m0, words, more, ws[..|ws| - 1]);
    }
  }

  lemma {:induction false} StoreSnoc(c: Config, m0: seq<Word>, words: seq<nat>, ws: seq<DataBeat>, b: DataBeat)
    requires Parameters(c) && MemoryFits(c, m0)
    requires BeatsFit(c, ws) && BeatFits(c, b) && |ws| < |words|
    requires forall k :: 0 <= k < |words| ==> words[k] < Depth(c)
    ensures BeatsFit(c, ws + [b])
    ensures Store(c, m0, words, ws + [b]) ==
            StoreOne(c, Store(c, m0, words, ws), words[|ws|], b)
  {
    var all := ws + [b];
    assert all[..|ws|] == ws && all[|ws|] == b;
  }

  lemma AddressControl(c: Config, w: WriteRegs, i: Inputs, log: Log)
    requires Parameters(c) && w.addr < AddrSpace(c) && InputsFit(c, i) && !i.rst
    requires Control(c, w, log) && w.fsm.Idle? && w.awready && i.awvalid
    ensures Control(c, WriteNext(c, w, i), Observe(log, w, i))
  {
    var q := Accepted(i);
    WordsSnoc(c, log.aws, q);
    FirstBeat(c, q);
    assert Ids(log.aws + [q]) == Ids(log.aws) + [q.id];
    assert log.ws + [] == log.ws;
  }

  /** An edge that accepts an address. */
  lemma AddressEdge(c: Config, m0: seq<Word>, s: State, i: Inputs, log: Log)
    requires Fits(c, s) && MemoryFits(c, m0) && InputsFit(c, i) && !i.rst
    requires Tracks(c, m0, s, log) && s.w.fsm.Idle? && s.w.awready && i.awvalid
    ensures Tracks(c, m0, Step(c, s, i), Observe(log, s.w, i))
  {
    var q := Accepted(i);
    AddressControl(c, s.w, i, log);
    WordsSnoc(c, log.aws, q);
    StoreIgnoresLaterWords(c, m0, Words(c, log.aws), BurstWords(c, q), log.ws);
    assert log.ws + [] == log.ws;
  }

  /** While in BURST the next data beat belongs to the word the address register points at. */
  lemma {:induction false} NextWord(c: Config, w: WriteRegs, aws: seq<Request>)
    requires Parameters(c) && w.addr < AddrSpace(c) && RequestsFit(c, aws) && InBurst(c, w, aws)
    ensures var words := Words(c, aws); var next := |words| - (w.count + 1);
            0 <= next < |words| && words[next] == WordIndex(c, w.addr)
    ensures w.count > 0 ==>
      Advance(c, w.addr, w.size, w.burst) == BeatAddr(c, aws[|aws| - 1], aws[|aws| - 1].len - (w.count - 1))
  {
    var q := aws[|aws| - 1];
    NextBeat(c, q, q.len - w.count);
  }

  lemma DataControl(c: Config, w: WriteRegs, i: Inputs, log: Log)
    requires Parameters(c) && w.addr < AddrSpace(c) && InputsFit(c, i) && !i.rst
    requires Control(c, w, log) && w.fsm.Burst? && i.wvalid
    ensures Control(c, WriteNext(c, w, i), Observe(log, w, i))
  {
    NextWord(c, w, log.aws);
    assert log.aws + [] == log.aws;
  }

  /** An edge that accepts a data beat. */
  lemma DataEdge(c: Config, m0: seq<Word>, s: State, i: Inputs, log: Log)
    requires Fits(c, s) && MemoryFits(c, m0) && InputsFit(c, i) && !i.rst
    requires Tracks(c, m0, s, log) && s.w.fsm.Burst? && i.wvalid
    ensures Tracks(c, m0, Step(c, s, i), Observe(log, s.w, i))
  {
    var words, b := Words(c, log.aws), DataBeat(i.wdata, i.wstrb);
    DataControl(c, s.w, i, log);
    assert MemNext(c, s.mem, s.w, i) == StoreOne(c, s.mem, words[|log.ws|], b) by {
      NextWord(c, s.w, log.aws);
    }
    StoreSnoc(c, m0, words, log.ws, b);
    assert Observe(log, s.w, i).aws == log.aws;
  }

  /** An edge that accepts neither: waiting, or forming a held-back response. */
  lemma QuietControl(c: Config, w: WriteRegs, i: Inputs, log: Log)
    requires Parameters(c) && w.addr < AddrSpace(c) && InputsFit(c, i) && !i.rst
    requires Control(c, w, log)
    requires !(w.awready && i.awvalid) && !(w.fsm.Burst? && i.wvalid)
    ensures Control(c, WriteNext(c, w, i), Observe(log, w, i))
    ensures Observe(log, w, i).aws == log.aws && Observe(log, w, i).ws == log.ws
  {
    assert Observe(log, w, i).aws == log.aws && Observe(log, w, i).ws == log.ws;
  }

  lemma {:induction false} RunTracks(c: Config, s: State, ins: seq<Inputs>)
    requires Fits(c, s) && AfterReset(s) && RunInputs(c, ins)
    ensures Tracks(c, s.mem, Run(c, s, ins), LogOf(c, s, ins))
  {
    if ins == [] {
    } else {
      var n := |ins| - 1;
      RunTracks(c, s, ins[..n]);
      var at, i, log := Run(c, s, ins[..n]), ins[n], LogOf(c, s, ins[..n]);
      if at.w.awready && i.awvalid {
        AddressEdge(c, s.mem, at, i, log);
      } else if at.w.fsm.Burst? && i.wvalid {
        DataEdge(c, s.mem, at, i, log);
      } else {
        QuietControl(c, at.w, i, log);
      }
    }
  }

  // ---- What every run after reset guarantees ----

  lemma {:induction false} WordsCount(c: Config, qs: seq<Request>)
    requires Parameters(c) && RequestsFit(c, qs)
    ensures |Words(c, qs)| == TotalBeats(qs)
  {
    if qs != [] {
      WordsCount(c, qs[..|qs| - 1]);
    }
  }

  /** Whatever the stalls, `mem` is the plain memory after the accepted data beats went, in order,
      to the successive words of the accepted bursts. */
  lemma {:induction false} MemoryIsStoredBeats(c: Config, s: State, ins: seq<Inputs>)
    requires Fits(c, s) && AfterReset(s) && RunInputs(c, ins)
    ensures var log := LogOf(c, s, ins);
            && RequestsFit(c, log.aws) && BeatsFit(c, log.ws)
            && |log.ws| <= |Words(c, log.aws)|
            && Run(c, s, ins).mem == Store(c, s.mem, Words(c, log.aws), log.ws)
  {
    RunTracks(c, s, ins);
  }

  /** Each burst takes exactly len + 1 data beats: the beats taken and the beats still owed add up
      to those requested, data is taken exactly while some are owed, and the next address is taken
      only when none are. The eight-bit counter that wraps below zero does not matter. */
  lemma {:induction false} BurstsTakeTheirBeats(c: Config, s: State, ins: seq<Inputs>)
    requires Fits(c, s) && AfterReset(s) && RunInputs(c, ins)
    ensures var log, w := LogOf(c, s, ins), Run(c, s, ins).w;
            && |log.ws| + Owed(w) == TotalBeats(log.aws)
            && (w.wready <==> |log.ws| < TotalBeats(log.aws))
            && (w.awready ==> |log.ws| == TotalBeats(log.aws))
  {
    RunTracks(c, s, ins);
    WordsCount(c, LogOf(c, s, ins).aws);
  }

  /** Write responses are conserved and come back in request order. */
  lemma {:induction false} ResponsesFollowRequests(c: Config, s: State, ins: seq<Inputs>)
    requires Fits(c, s) && AfterReset(s) && RunInputs(c, ins)
    ensures var log, w := LogOf(c, s, ins), Run(c, s, ins).w;
            && |log.aws| == |log.bs| + (if w.bvalid then 1 else 0) + (if w.fsm.Idle? then 0 else 1)
            && log.bs + Unanswered(w) == Ids(log.aws)
            && (w.fsm.Resp? ==> w.bvalid)
            && (w.wready <==> w.fsm.Burst?)
  {
    RunTracks(c, s, ins);
  }

  /** One edge on the memory, reset asserted or not, which the write enable does not look at: a beat that is
      taken overwrites the strobed lanes of the addressed word and nothing else; any other edge nothing. */
  lemma EdgeOnMemory(c: Config, s: State, i: Inputs, k: nat, l: nat)
    requires Fits(c, s) && InputsFit(c, i) && k < Depth(c) && l < Lanes(c)
    ensures var taken := s.w.fsm.Burst? && s.w.wready && i.wvalid;
            Step(c, s, i).mem[k][l] ==
              if taken && k == s.w.addr / Lanes(c) && i.wstrb[l] then i.wdata[l] else s.mem[k][l]
  {
  }

  /** Section A3.2.1 of ARM IHI 0022E for the B channel, from any state at all: a response that is
      not taken stays up, with its id, however long the master waits. */
  lemma {:induction false} ResponseHeld(c: Config, s: State, ins: seq<Inputs>)
    requires Fits(c, s) && RunInputs(c, ins) && s.w.bvalid
    requires forall k :: 0 <= k < |ins| ==> !ins[k].bready
    ensures Run(c, s, ins).w.bvalid && Run(c, s, ins).w.bid == s.w.bid
  {
    if ins != [] {
      ResponseHeld(c, s, ins[..|ins| - 1]);
    }
  }

  /** The plain memory read lane by lane: a lane holds what the last strobed beat to it carried, and
      its first value if there was none. */
  lemma {:induction false} LastStrobedBeatWins(c: Config, m0: seq<Word>, words: seq<nat>,
                                               ws: seq<DataBeat>, k: nat, l: nat)
    requires Parameters(c) && MemoryFits(c, m0) && BeatsFit(c, ws) && |ws| <= |words|
    requires forall j :: 0 <= j < |words| ==> words[j] < Depth(c)
    requires k < Depth(c) && l < Lanes(c)
    ensures var lane := Store(c, m0, words, ws)[k][l];
            || (lane == m0[k][l] && forall j :: 0 <= j < |ws| && words[j] == k ==> !ws[j].strb[l])
            || exists j :: 0 <= j < |ws| && words[j] == k && ws[j].strb[l] && lane == ws[j].data[l]
                 && forall j' :: j < j' < |ws| && words[j'] == k ==> !ws[j'].strb[l]
  {
    if ws != [] {
      var n := |ws| - 1;
      LastStrobedBeatWins(c, m0, words, ws[..n], k, l);
      if words[n] != k || !ws[n].strb[l] {
        assert Store(c, m0, words, ws)[k][l] == Store(c, m0, words, ws[..n])[k][l];
      }
    }
  }
}
