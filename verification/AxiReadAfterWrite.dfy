/** Both sides of the RAM together: a read beat carries the latest write that came before it. */
module AxiReadAfterWrite {
  import opened AxiRam
  import opened AxiBurst
  import Reads = AxiRead
  import Writes = AxiWrite

  /** Lane `l` of word `k` after the data beats `ws`, beat j of which went to word `words[j]`: what the
      last strobed beat for it carried, or `first` if there was none. */
  predicate Latest(words: seq<nat>, ws: seq<Writes.DataBeat>, k: nat, l: nat, first: Lane, lane: Lane)
    requires |ws| <= |words|
    requires forall j :: 0 <= j < |ws| ==> l < |ws[j].data| && l < |ws[j].strb|
  {
    || (lane == first && forall j :: 0 <= j < |ws| && words[j] == k ==> !ws[j].strb[l])
    || exists j :: 0 <= j < |ws| && words[j] == k && ws[j].strb[l] && lane == ws[j].data[l]
         && forall j' :: j < j' < |ws| && words[j'] == k ==> !ws[j'].strb[l]
  }

  /** The memory just before edge `t`, lane by lane. */
  lemma {:induction false} MemoryIsLatest(c: Config, s: State, ins: seq<Inputs>, k: nat, l: nat)
    requires Fits(c, s) && AfterReset(s) && RunInputs(c, ins) && k < Depth(c) && l < Lanes(c)
    ensures var log := Writes.LogOf(c, s, ins);
            && RequestsFit(c, log.aws) && Writes.BeatsFit(c, log.ws)
            && |log.ws| <= |Writes.Words(c, log.aws)|
            && Latest(Writes.Words(c, log.aws), log.ws, k, l, s.mem[k][l], Run(c, s, ins).mem[k][l])
  {
    Writes.MemoryIsStoredBeats(c, s, ins);
    var log := Writes.LogOf(c, s, ins);
    Writes.LastStrobedBeatWins(c, s.mem, Writes.Words(c, log.aws), log.ws, k, l);
  }

  /** The k-th fetched beat of a run, as the memory stood when it was fetched. */
  lemma {:induction false} FetchedFromMemory(c: Config, s: State, ins: seq<Inputs>, k: nat)
    requires Fits(c, s) && AfterReset(s) && RunInputs(c, ins) && k < |Reads.LogOf(c, s, ins).fetched|
    ensures var log := Reads.LogOf(c, s, ins); var f := log.fetched[k];
            && RequestsFit(c, log.ars) && k < |Reads.Plan(c, log.ars)| && f.edge < |ins|
            && f.beat.data == Run(c, s, ins[..f.edge]).mem[Reads.Plan(c, log.ars)[k].word]
            && (k < |log.delivered| ==> log.delivered[k] == f.beat)
  {
    Reads.ReadsDeliverTheBursts(c, s, ins);
    var log := Reads.LogOf(c, s, ins);
    assert Reads.CarriesOut(Reads.Memories(c, s, ins), log.fetched[k], Reads.Plan(c, log.ars)[k]);
    Reads.MemoryBeforeEdge(c, s, ins, log.fetched[k].edge);
    assert Reads.Beats(log.fetched)[k] == (log.delivered + Reads.InFlight(c, Run(c, s, ins).r))[k];
  }

  /** In every run after reset, whatever the stalls on either channel: each lane of the k-th read beat,
      the k-th delivered if it has been, is what the last strobed W beat taken before the fetching edge
      carried to the word that beat was planned for, or the lane's first value if no such beat strobed it. */
  lemma {:induction false} ReadsSeeTheLatestWrite(c: Config, s: State, ins: seq<Inputs>, k: nat, l: nat)
    requires Fits(c, s) && AfterReset(s) && RunInputs(c, ins) && l < Lanes(c)
    requires k < |Reads.LogOf(c, s, ins).fetched|
    ensures var log := Reads.LogOf(c, s, ins); var f := log.fetched[k];
            && RequestsFit(c, log.ars) && k < |Reads.Plan(c, log.ars)|
            && f.edge < |ins| && |f.beat.data| == Lanes(c)
            && (k < |log.delivered| ==> log.delivered[k] == f.beat)
            && var word, before := Reads.Plan(c, log.ars)[k].word, Writes.LogOf(c, s, ins[..f.edge]);
            && RequestsFit(c, before.aws) && Writes.BeatsFit(c, before.ws)
            && |before.ws| <= |Writes.Words(c, before.aws)|
            && Latest(Writes.Words(c, before.aws), before.ws, word, l, s.mem[word][l], f.beat.data[l])
  {
    hide Run, Reads.LogOf, Writes.LogOf, Reads.Plan, Writes.Words, Latest, Reads.InFlight;
    FetchedFromMemory(c, s, ins, k);
    var log := Reads.LogOf(c, s, ins);
    MemoryIsLatest(c, s, ins[..log.fetched[k].edge], Reads.Plan(c, log.ars)[k].word, l);
  }
}
