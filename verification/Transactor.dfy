/** The word-level transactor (src/sim/pcie_cosim.cpp): bounded wait loops that drive the RTL model.
    The RTL is arbitrary: all that is known of it is what its outputs were after each evaluation. */
module Transactor {
  import opened Protocol
  import Device

  const MAX_TRANSACTION_CYCLES := 100

  /** One behaviour of the model: the evaluations after which s_axis_rx_tready is up, those after which
      m_axis_tx_tvalid is up, and m_axis_tx_tdata after each evaluation (0 where not listed). */
  datatype Rtl = Rtl(ready: iset<nat>, valid: iset<nat>, data: imap<nat, U64>)

  /** Inputs of the model other than the clock. */
  datatype Pins = Pins(rxValid: bool, rxData: U64, rxKeep: Byte, rxLast: bool, beat: Byte, txReady: bool)

  function Repeat(p: Pins, n: nat): (s: seq<Pins>)
    ensures |s| == n
  {
    seq(n, _ => p)
  }

  lemma RepeatMore(p: Pins, n: nat)
    ensures Repeat(p, 0) == [] && Repeat(p, n + 1) == Repeat(p, n) + [p]
  {
  }

  lemma RepeatOnto(was: seq<Pins>, p: Pins, n: nat)
    ensures was + Repeat(p, n + 1) == was + Repeat(p, n) + [p]
  {
    RepeatMore(p, n);
  }

  // ---- Packet words ----

  function Beat64(low: U32, high: U32): U64 {
    high * 0x1_0000_0000 + low
  }

  function HeaderWord(reqId: U16, tag: Byte): U32 {
    reqId * 0x1_0000 + tag * 0x100 + 0x0F
  }

  function WordAligned(addr: U32): U32 {
    addr - addr % 4
  }

  // ---- Waiting ----

  datatype Signal = RxReady | TxValid

  predicate Sample(rtl: Rtl, s: Signal, e: nat) {
    if s.RxReady? then e in rtl.ready else e in rtl.valid
  }

  function TxData(rtl: Rtl, e: nat): U64 {
    if e in rtl.data then rtl.data[e] else 0
  }

  /** The signal is up when it is looked at for the j-th time, three evaluations a cycle. */
  predicate UpAt(rtl: Rtl, s: Signal, e: nat, j: nat) {
    Sample(rtl, s, e + 3 * j)
  }

  /** Cycles waited for a signal first looked at after evaluation `e`; 100 means it never came. */
  function Waits(rtl: Rtl, s: Signal, e: nat): (n: nat)
    ensures n <= 100
  {
    WaitsFrom(rtl, s, e, 0)
  }

  function WaitsFrom(rtl: Rtl, s: Signal, e: nat, from: nat): (n: nat)
    requires from <= 100
    ensures from <= n <= 100
    decreases 100 - from
  {
    if from == 100 || UpAt(rtl, s, e, from) then from else WaitsFrom(rtl, s, e, from + 1)
  }

  lemma {:induction false} WaitsFromFindsFirst(rtl: Rtl, s: Signal, e: nat, from: nat)
    requires from <= 100
    ensures var n := WaitsFrom(rtl, s, e, from);
            && (n < 100 ==> UpAt(rtl, s, e, n))
            && forall j: nat :: from <= j < n ==> !UpAt(rtl, s, e, j)
    decreases 100 - from
  {
    if from < 100 && !UpAt(rtl, s, e, from) {
      WaitsFromFindsFirst(rtl, s, e, from + 1);
    }
  }

  /** A wait succeeds exactly when the signal comes within 99 cycles, and ends at its first coming. */
  lemma WaitSucceedsWithin99(rtl: Rtl, s: Signal, e: nat)
    ensures var n := Waits(rtl, s, e);
            && (n < 100 <==> exists j: nat :: j <= 99 && UpAt(rtl, s, e, j))
            && (n < 100 ==> UpAt(rtl, s, e, n))
            && forall j: nat :: j < n ==> !UpAt(rtl, s, e, j)
  {
    WaitsFromFindsFirst(rtl, s, e, 0);
  }

  lemma UpWhenOver(rtl: Rtl, s: Signal, e: nat)
    ensures Waits(rtl, s, e) < 100 ==> UpAt(rtl, s, e, Waits(rtl, s, e))
  {
    WaitSucceedsWithin99(rtl, s, e);
  }

  // ---- One word write ----

  function WritePins(addr: U32, tag: Byte, reqId: U16, data: U32, beat: Byte): Pins {
    Pins(true,
         if beat == 0 then Beat64(0x4000_0001, HeaderWord(reqId, tag))
         else Beat64(WordAligned(addr), data),
         0xFF, beat == 1, beat, false)
  }

  function WriteWait0(rtl: Rtl, e: nat): nat {
    Waits(rtl, RxReady, e + 1)
  }

  function WriteWait1(rtl: Rtl, e: nat): nat {
    Waits(rtl, RxReady, e + 1 + 3 * WriteWait0(rtl, e) + 3 + 1)
  }

  /** The pins at every rising clock edge up to the end of a word write started after evaluation `e`:
      beat 0 until taken, beat 1 until taken, ten idle cycles. `was` is what came before. */
  function WriteEdges(was: seq<Pins>, rtl: Rtl, e: nat, addr: U32, tag: Byte, reqId: U16,
                      data: U32): seq<Pins> {
    var n0, n1 := WriteWait0(rtl, e), WriteWait1(rtl, e);
    var p0, p1 := WritePins(addr, tag, reqId, data, 0), WritePins(addr, tag, reqId, data, 1);
    var s0 := was + Repeat(p0, n0) + [p0];
    var s1 := s0 + Repeat(p1, n1) + [p1];
    if n0 == 100 then s0
    else if n1 == 100 then s1
    else s1 + Repeat(p1.(rxValid := false, rxLast := false), 10)
  }

  // ---- One word read ----

  function ReadPins(addr: U32, tag: Byte, reqId: U16, beat: Byte): Pins {
    Pins(true,
         if beat == 0 then Beat64(1, HeaderWord(reqId, tag)) else WordAligned(addr),
         if beat == 0 then 0xFF else 0x0F, beat == 1, beat, false)
  }

  /** What the pins show while the completion is drained. */
  function DrainPins(addr: U32): Pins {
    Pins(false, WordAligned(addr), 0x0F, false, 1, true)
  }

  /** The four waits of a read: beat 0 and beat 1 taken, beat 0 and beat 1 of the completion. Each is
      only reached when those before it succeed. `sampled` is the evaluation whose data is taken. */
  datatype ReadWaits = ReadWaits(beat0: nat, beat1: nat, drain: nat, cpl0: nat, cpl1: nat, sampled: nat)

  function WaitsOfRead(rtl: Rtl, e: nat): (w: ReadWaits)
    ensures w.beat0 <= 100 && w.beat1 <= 100 && w.cpl0 <= 100 && w.cpl1 <= 100
  {
    var n0 := Waits(rtl, RxReady, e + 1);
    var e1 := e + 1 + 3 * n0 + 1;
    var n1 := Waits(rtl, RxReady, e1);
    var e2 := e1 + 3 * n1 + 3;
    var n2 := Waits(rtl, TxValid, e2);
    var e3 := e2 + 3 * n2 + 3;
    var n3 := Waits(rtl, TxValid, e3);
    ReadWaits(n0, n1, e2, n2, n3, e3 + 3 * n3)
  }

  predicate RequestTaken(w: ReadWaits) {
    w.beat0 < 100 && w.beat1 < 100
  }

  predicate ReadCompletes(w: ReadWaits) {
    RequestTaken(w) && w.cpl0 < 100 && w.cpl1 < 100
  }

  function RequestEdges(was: seq<Pins>, w: ReadWaits, addr: U32, tag: Byte, reqId: U16): seq<Pins>
  {
    var p0, p1 := ReadPins(addr, tag, reqId, 0), ReadPins(addr, tag, reqId, 1);
    var s0 := was + Repeat(p0, w.beat0);
    var s1 := s0 + Repeat(p1, w.beat1);
    if w.beat0 == 100 then s0
    else if w.beat1 == 100 then s1
    else s1 + [p1]
  }

  function CompletionEdges(was: seq<Pins>, w: ReadWaits, drain: Pins): seq<Pins>
  {
    var s2 := was + Repeat(drain, w.cpl0);
    var s3 := s2 + [drain] + Repeat(drain, w.cpl1);
    if w.cpl0 == 100 then s2
    else if w.cpl1 == 100 then s3
    else s3 + [drain]
  }

  function ReadEdges(was: seq<Pins>, rtl: Rtl, e: nat, addr: U32, tag: Byte,
                     reqId: U16): seq<Pins> {
    var w := WaitsOfRead(rtl, e);
    var sent := RequestEdges(was, w, addr, tag, reqId);
    if RequestTaken(w) then CompletionEdges(sent, w, DrainPins(addr)) else sent
  }

  /** The completion's data: the upper half of the output data when beat 1 is sampled. */
  function ReadValue(rtl: Rtl, e: nat): Option<U32> {
    var w := WaitsOfRead(rtl, e);
    if ReadCompletes(w) then Some(TxData(rtl, w.sampled) / 0x1_0000_0000) else None
  }

  // ---- Bounds for every RTL ----

  /** A word write never takes more than 210 clock cycles, and takes that many exactly when both beats
      are taken at the last moment. */
  lemma WriteBound(was: seq<Pins>, rtl: Rtl, e: nat, addr: U32, tag: Byte, reqId: U16, data: U32)
    ensures var n := |WriteEdges(was, rtl, e, addr, tag, reqId, data)| - |was|;
            && 1 <= n <= 210
            && (n == 210 <==> WriteWait0(rtl, e) == 99 && WriteWait1(rtl, e) == 99)
  {
  }

  lemma RequestBound(was: seq<Pins>, w: ReadWaits, addr: U32, tag: Byte, reqId: U16)
    requires w.beat0 <= 100 && w.beat1 <= 100
    ensures var n := |RequestEdges(was, w, addr, tag, reqId)| - |was|;
            && 0 <= n <= 199
            && (RequestTaken(w) ==> n == w.beat0 + w.beat1 + 1)
  {
  }

  lemma CompletionBound(was: seq<Pins>, w: ReadWaits, drain: Pins)
    requires w.cpl0 <= 100 && w.cpl1 <= 100
    ensures var n := |CompletionEdges(was, w, drain)| - |was|;
            && 0 <= n <= 200
            && (n == 200 <==> w.cpl0 == 99 && w.cpl1 >= 99)
  {
  }

  /** A word read never takes more than 399, and takes that many exactly when every wait but the last
      succeeds at the last moment and the last does so too or fails. */
  lemma ReadBound(was: seq<Pins>, rtl: Rtl, e: nat, addr: U32, tag: Byte, reqId: U16)
    ensures var n, w := |ReadEdges(was, rtl, e, addr, tag, reqId)| - |was|, WaitsOfRead(rtl, e);
            && 0 <= n <= 399
            && (n == 399 <==> w.beat0 == 99 && w.beat1 == 99 && w.cpl0 == 99 && w.cpl1 >= 99)
  {
    var w := WaitsOfRead(rtl, e);
    RequestBound(was, w, addr, tag, reqId);
    CompletionBound(RequestEdges(was, w, addr, tag, reqId), w, DrainPins(addr));
  }

  // ---- What is on the data pins, taken apart ----

  /** The beat with DW0 below and DW1 above: DW0 is the format and type and a length of one word, DW1 the
      requester, the tag and the byte enables of a whole word. */
  predicate HeaderBeat(p: Pins, fmtType: nat, reqId: U16, tag: Byte) {
    var dw0, dw1 := p.rxData % 0x1_0000_0000, p.rxData / 0x1_0000_0000;
    && dw0 / 0x100_0000 == fmtType && dw0 % 0x100_0000 == 1
    && dw1 / 0x1_0000 == reqId && dw1 / 0x100 % 0x100 == tag && dw1 % 0x100 == 15
    && p.rxKeep == 255 && !p.rxLast
  }

  /** The beat with the word's address below and `data` above. Bits 10..2 of the pins, which the glue takes
      for the word of the RAM, are the word the end point means. */
  predicate AddressBeat(p: Pins, addr: U32, data: U32, keep: Byte) {
    var dw2 := p.rxData % 0x1_0000_0000;
    && dw2 % 4 == 0 && dw2 / 4 == addr / 4
    && p.rxData / 0x1_0000_0000 == data
    && p.rxData / 4 % 0x200 == Device.RamWord(addr)
    && p.rxKeep == keep && p.rxLast
  }

  /** What a beat that is offered shows of a write, and of a read. */
  predicate ShowsWrite(p: Pins, addr: U32, tag: Byte, reqId: U16, data: U32) {
    if p.beat == 0 then HeaderBeat(p, 0x40, reqId, tag) else p.beat == 1 && AddressBeat(p, addr, data, 255)
  }

  predicate ShowsRead(p: Pins, addr: U32, tag: Byte, reqId: U16) {
    if p.beat == 0 then HeaderBeat(p, 0, reqId, tag) else p.beat == 1 && AddressBeat(p, addr, 0, 15)
  }

  lemma HalvesOf(low: U32, high: U32)
    ensures Beat64(low, high) % 0x1_0000_0000 == low && Beat64(low, high) / 0x1_0000_0000 == high
  {
  }

  lemma HeaderWordOf(reqId: U16, tag: Byte)
    ensures var w := HeaderWord(reqId, tag); w / 0x1_0000 == reqId && w / 0x100 % 0x100 == tag && w % 0x100 == 15
  {
  }

  lemma WordOf(addr: U32, high: U32)
    ensures var x := Beat64(WordAligned(addr), high); x / 4 % 0x200 == Device.RamWord(addr)
    ensures WordAligned(addr) % 4 == 0 && WordAligned(addr) / 4 == addr / 4
  {
    assert Beat64(WordAligned(addr), high) / 4 == high * 0x4000_0000 + addr / 4;
    assert high * 0x4000_0000 + addr / 4 == 0x200 * (high * 0x20_0000) + addr / 4;
  }

  lemma WritePinsShow(addr: U32, tag: Byte, reqId: U16, data: U32)
    ensures forall b: Byte :: b <= 1 ==> ShowsWrite(WritePins(addr, tag, reqId, data, b), addr, tag, reqId, data)
  {
    HalvesOf(0x4000_0001, HeaderWord(reqId, tag));
    HalvesOf(WordAligned(addr), data);
    HeaderWordOf(reqId, tag);
    WordOf(addr, data);
    hide Beat64, HeaderWord, WordAligned, Device.RamWord;
  }

  lemma ReadPinsShow(addr: U32, tag: Byte, reqId: U16)
    ensures forall b: Byte :: b <= 1 ==> ShowsRead(ReadPins(addr, tag, reqId, b), addr, tag, reqId)
  {
    HalvesOf(1, HeaderWord(reqId, tag));
    HalvesOf(WordAligned(addr), 0);
    HeaderWordOf(reqId, tag);
    WordOf(addr, 0);
    assert Beat64(WordAligned(addr), 0) == WordAligned(addr);
    hide Beat64, HeaderWord, WordAligned, Device.RamWord;
  }

  lemma WriteShape(was: seq<Pins>, rtl: Rtl, e: nat, addr: U32, tag: Byte, reqId: U16, data: U32)
    ensures var edges := WriteEdges(was, rtl, e, addr, tag, reqId, data);
            var p0, p1 := WritePins(addr, tag, reqId, data, 0), WritePins(addr, tag, reqId, data, 1);
            var k0 := |was| + WriteWait0(rtl, e); var k1 := k0 + 1 + WriteWait1(rtl, e);
            && was <= edges
            && forall k :: |was| <= k < |edges| ==>
                 edges[k] == if k <= k0 then p0 else if k <= k1 then p1 else p1.(rxValid := false, rxLast := false)
  {
    hide Waits, WritePins;
  }

  /** Whatever the RTL does, every beat offered at a clock edge of a word write shows that write: header
      beats first, then address and data. */
  lemma WriteShowsItsWord(was: seq<Pins>, rtl: Rtl, e: nat, addr: U32, tag: Byte, reqId: U16, data: U32)
    ensures var edges := WriteEdges(was, rtl, e, addr, tag, reqId, data);
            && was <= edges
            && (forall k :: |was| <= k < |edges| ==>
                  !edges[k].txReady && (edges[k].rxValid ==> ShowsWrite(edges[k], addr, tag, reqId, data)))
            && (forall j, k :: |was| <= j <= k < |edges| ==> edges[j].beat <= edges[k].beat)
  {
    var p0, p1 := WritePins(addr, tag, reqId, data, 0), WritePins(addr, tag, reqId, data, 1);
    assert p0.beat == 0 && p1.beat == 1 && !p0.txReady && !p1.txReady;
    hide WriteEdges, WritePins, ShowsWrite, WriteWait0, WriteWait1;
    WriteShape(was, rtl, e, addr, tag, reqId, data);
    WritePinsShow(addr, tag, reqId, data);
    assert ShowsWrite(p0, addr, tag, reqId, data) && ShowsWrite(p1, addr, tag, reqId, data);
  }

  lemma RequestShowsItsWord(was: seq<Pins>, w: ReadWaits, addr: U32, tag: Byte, reqId: U16)
    ensures var edges := RequestEdges(was, w, addr, tag, reqId);
            && was <= edges
            && (forall k :: |was| <= k < |edges| ==>
                  edges[k].rxValid && !edges[k].txReady && ShowsRead(edges[k], addr, tag, reqId))
            && (forall j, k :: |was| <= j <= k < |edges| ==> edges[j].beat <= edges[k].beat)
            && (RequestTaken(w) ==> |edges| > |was| && edges[|edges| - 1].beat == 1)
  {
    ReadPinsShow(addr, tag, reqId);
    assert ReadPins(addr, tag, reqId, 0).beat == 0 && ReadPins(addr, tag, reqId, 1).beat == 1;
    hide ShowsRead, Beat64, HeaderWord, WordAligned;
  }

  /** The same for a word read. Once its request is through, nothing is offered and the completion is
      awaited. */
  lemma ReadShowsItsWord(was: seq<Pins>, rtl: Rtl, e: nat, addr: U32, tag: Byte, reqId: U16)
    ensures var edges := ReadEdges(was, rtl, e, addr, tag, reqId);
            && was <= edges
            && (forall k :: |was| <= k < |edges| ==>
                  && edges[k].rxValid == !edges[k].txReady
                  && (edges[k].rxValid ==> ShowsRead(edges[k], addr, tag, reqId)))
            && (forall j, k :: |was| <= j <= k < |edges| && edges[j].txReady ==> edges[k].txReady)
  {
    var w := WaitsOfRead(rtl, e);
    RequestShowsItsWord(was, w, addr, tag, reqId);
    CompletionShape(RequestEdges(was, w, addr, tag, reqId), w, DrainPins(addr));
    hide WaitsOfRead, RequestEdges, CompletionEdges, ShowsRead, WordAligned;
  }

  lemma UpperWord(low: U32, high: U32, x: nat)
    requires x == low + 0x1_0000_0000 * high
    ensures x / 0x1_0000_0000 == high
  {
  }

  lemma SampledWhileValid(rtl: Rtl, e: nat)
    ensures ReadCompletes(WaitsOfRead(rtl, e)) ==> WaitsOfRead(rtl, e).sampled in rtl.valid
  {
    hide Waits;
    var w := WaitsOfRead(rtl, e);
    UpWhenOver(rtl, TxValid, w.sampled - 3 * w.cpl1);
  }

  /** A read returns the upper word of what the RTL shows when it offers its second beat, and returns
      something exactly when every one of its waits succeeds. */
  lemma ReadReturnsUpperWord(rtl: Rtl, e: nat, low: U32, high: U32)
    requires var w := WaitsOfRead(rtl, e); ReadCompletes(w) ==> TxData(rtl, w.sampled) == low + 0x1_0000_0000 * high
    ensures var w := WaitsOfRead(rtl, e);
            ReadValue(rtl, e) == (if w.beat0 < 100 && w.beat1 < 100 && w.cpl0 < 100 && w.cpl1 < 100
                                  then Some(high) else None)
    ensures ReadValue(rtl, e).Some? ==> WaitsOfRead(rtl, e).sampled in rtl.valid
  {
    hide WaitsOfRead, TxData;
    var w := WaitsOfRead(rtl, e);
    SampledWhileValid(rtl, e);
    if ReadCompletes(w) {
      UpperWord(low, high, TxData(rtl, w.sampled));
    }
  }

  /** If both waits succeed, the RTL is clocked with beat 0 and later with beat 1 while it shows ready,
      and after that with nothing. */
  lemma WriteOffersBothBeats(was: seq<Pins>, rtl: Rtl, e: nat, addr: U32, tag: Byte,
                             reqId: U16, data: U32)
    requires WriteWait0(rtl, e) < 100 && WriteWait1(rtl, e) < 100
    ensures var edges := WriteEdges(was, rtl, e, addr, tag, reqId, data);
            var k0 := |was| + WriteWait0(rtl, e); var k1 := k0 + 1 + WriteWait1(rtl, e);
            && k1 + 10 < |edges|
            && edges[k0] == WritePins(addr, tag, reqId, data, 0)
            && edges[k1] == WritePins(addr, tag, reqId, data, 1)
            && edges[k0].rxValid && HeaderBeat(edges[k0], 0x40, reqId, tag)
            && edges[k1].rxValid && AddressBeat(edges[k1], addr, data, 255)
            && (forall j :: k1 < j < |edges| ==> !edges[j].rxValid)
    ensures UpAt(rtl, RxReady, e + 1, WriteWait0(rtl, e))
    ensures UpAt(rtl, RxReady, e + 1 + 3 * WriteWait0(rtl, e) + 4, WriteWait1(rtl, e))
  {
    WritePinsShow(addr, tag, reqId, data);
    assert ShowsWrite(WritePins(addr, tag, reqId, data, 0), addr, tag, reqId, data);
    assert ShowsWrite(WritePins(addr, tag, reqId, data, 1), addr, tag, reqId, data);
    hide Waits, UpAt, Beat64, HeaderWord, WordAligned, HeaderBeat, AddressBeat;
    UpWhenOver(rtl, RxReady, e + 1);
    UpWhenOver(rtl, RxReady, e + 1 + 3 * WriteWait0(rtl, e) + 4);
  }

  lemma RequestShape(was: seq<Pins>, w: ReadWaits, addr: U32, tag: Byte, reqId: U16)
    ensures var edges := RequestEdges(was, w, addr, tag, reqId);
            && |was| + w.beat0 <= |edges|
            && (forall k :: |was| <= k < |was| + w.beat0 ==> edges[k] == ReadPins(addr, tag, reqId, 0))
            && (forall k :: |was| + w.beat0 <= k < |edges| ==> edges[k].beat == 1)
  {
  }

  lemma CompletionShape(was: seq<Pins>, w: ReadWaits, drain: Pins)
    ensures var edges := CompletionEdges(was, w, drain);
            was <= edges && forall k :: |was| <= k < |edges| ==> edges[k] == drain
  {
  }

  /** The read is not symmetrical with the write: no clock edge follows the wait for beat 0, so beat 0
      is only ever clocked in cycles in which the RTL did not show ready, and in none at all if the
      RTL is ready at once. */
  lemma ReadBeat0OnlyClockedWhileBusy(was: seq<Pins>, rtl: Rtl, e: nat, addr: U32, tag: Byte, reqId: U16)
    ensures var edges, w := ReadEdges(was, rtl, e, addr, tag, reqId), WaitsOfRead(rtl, e);
            && |was| + w.beat0 <= |edges|
            && (forall k :: |was| <= k < |was| + w.beat0 ==>
                  edges[k] == ReadPins(addr, tag, reqId, 0) && !UpAt(rtl, RxReady, e + 1, k - |was|))
            && (forall k :: |was| + w.beat0 <= k < |edges| ==> edges[k].beat == 1)
  {
    var w := WaitsOfRead(rtl, e);
    WaitSucceedsWithin99(rtl, RxReady, e + 1);
    RequestShape(was, w, addr, tag, reqId);
    CompletionShape(RequestEdges(was, w, addr, tag, reqId), w, DrainPins(addr));
  }

  class Bfm {
    const rtl: Rtl
    var evals: nat
    var vtime: nat
    var pins: Pins
    ghost var edges: seq<Pins>

    /** Between words neither side of the handshake is offered. */
    predicate Quiet()
      reads this
    {
      !pins.rxValid && !pins.txReady
    }

    constructor (model: Rtl)
      ensures rtl == model && Quiet() && vtime == 0 && edges == []
    {
      rtl := model;
      evals, vtime, edges := 0, 0, [];
      pins := Pins(false, 0, 0, false, 0, false);
    }

    method Eval()
      modifies this`evals
      ensures evals == old(evals) + 1
    {
      evals := evals + 1;
    }

    /** Clock high for 50 units, then low for 50. */
    method Cycle()
      modifies this`evals, this`vtime, this`edges
      ensures evals == old(evals) + 2 && vtime == old(vtime) + 100
      ensures edges == old(edges) + [pins]
    {
      edges := edges + [pins];
      Eval();
      vtime := vtime + 50;
      Eval();
      vtime := vtime + 50;
    }

    /** The condition of the wait loops: `!signal && n++ < MAX`. */
    method Look(s: Signal, n: nat) returns (again: bool, n': nat)
      ensures again <==> !Sample(rtl, s, evals) && n < MAX_TRANSACTION_CYCLES
      ensures n' == if Sample(rtl, s, evals) then n else n + 1
    {
      again, n' := !Sample(rtl, s, evals), n;
      if again {
        again := n' < MAX_TRANSACTION_CYCLES;
        n' := n' + 1;
      }
    }

    /** The wait loop. The last, failing look is counted as well, so a signal that comes only after
        100 cycles is a timeout too. */
    method Await(s: Signal) returns (n: nat)
      modifies this`evals, this`vtime, this`edges
      ensures var waited := Waits(rtl, s, old(evals));
              && (n < MAX_TRANSACTION_CYCLES <==> waited < 100)
              && evals == old(evals) + 3 * waited
              && vtime == old(vtime) + 100 * waited
              && edges == old(edges) + Repeat(pins, waited)
              && (waited < 100 ==> Sample(rtl, s, evals))
    {
      RepeatMore(pins, 0);
      hide Sample, Repeat;
      ghost var e, body := evals, 0;
      var again;
      again, n := Look(s, 0);
      while again
        invariant body <= 100
        invariant evals == e + 3 * body && vtime == old(vtime) + 100 * body
        invariant edges == old(edges) + Repeat(pins, body)
        invariant WaitsFrom(rtl, s, e, body) == Waits(rtl, s, e)
        invariant UpAt(rtl, s, e, body) == Sample(rtl, s, evals)
        invariant again <==> !UpAt(rtl, s, e, body) && body < 100
        invariant n == if UpAt(rtl, s, e, body) then body else body + 1
        decreases 100 - body
      {
        Cycle();
        Eval();
        body := body + 1;
        RepeatOnto(old(edges), pins, body - 1);
        again, n := Look(s, n);
      }
    }

    /** One beat of a write: wait, then clock it in, taken or not. */
    method OfferBeat(p: Pins) returns (taken: bool)
      modifies this
      ensures pins == p
      ensures var waited := Waits(rtl, RxReady, old(evals) + 1);
              && (taken <==> waited < 100)
              && evals == old(evals) + 1 + 3 * waited + 3
              && vtime == old(vtime) + 100 * waited + 100
              && edges == old(edges) + Repeat(p, waited) + [p]
    {
      pins := p;
      Eval();
      var n := Await(RxReady);
      Cycle();
      Eval();
      taken := n < MAX_TRANSACTION_CYCLES;
    }

    method WriteWord(addr: U32, tag: Byte, reqId: U16, data: U32)
      requires Quiet()
      modifies this
      ensures Quiet()
      ensures edges == WriteEdges(old(edges), rtl, old(evals), addr, tag, reqId, data)
      ensures vtime == old(vtime) + 100 * (|edges| - |old(edges)|)
    {
      hide Waits, UpAt, Beat64, HeaderWord, WordAligned, Sample;
      ghost var e := evals;
      ghost var p0, p1 := WritePins(addr, tag, reqId, data, 0), WritePins(addr, tag, reqId, data, 1);
      ghost var s0 := edges + Repeat(p0, WriteWait0(rtl, e)) + [p0];
      ghost var s1 := s0 + Repeat(p1, WriteWait1(rtl, e)) + [p1];
      var i := 0;
      while i < 2
        invariant 0 <= i <= 2 && !pins.txReady
        invariant i == 0 ==> evals == e && edges == old(edges)
        invariant i == 1 ==> evals == e + 1 + 3 * WriteWait0(rtl, e) + 3 && edges == s0
        invariant i >= 1 ==> WriteWait0(rtl, e) < 100
        invariant i == 2 ==> WriteWait1(rtl, e) < 100 && edges == s1 && pins == p1
        invariant vtime == old(vtime) + 100 * (|edges| - |old(edges)|)
      {
        var data64 := if i == 0 then Beat64(0x4000_0001, HeaderWord(reqId, tag))
                      else Beat64(WordAligned(addr), data);
        var taken := OfferBeat(pins.(rxData := data64, rxKeep := 0xFF, rxValid := true,
                               rxLast := i == 1, beat := i));
        if !taken {
          pins := pins.(rxValid := false);
          return;
        }
        i := i + 1;
      }

      pins := pins.(rxValid := false, rxLast := false);
      Eval();
      Settle();
    }

    /** Ten cycles for the RTL to commit the write. */
    method Settle()
      modifies this`evals, this`vtime, this`edges
      ensures edges == old(edges) + Repeat(pins, 10) && vtime == old(vtime) + 1000
    {
      var k := 0;
      while k < 10
        invariant 0 <= k <= 10
        invariant edges == old(edges) + Repeat(pins, k) && vtime == old(vtime) + 100 * k
      {
        Cycle();
        Eval();
        k := k + 1;
        RepeatMore(pins, k - 1);
      }
    }

    method ReadWord(addr: U32, tag: Byte, reqId: U16) returns (value: Option<U32>)
      requires Quiet()
      modifies this
      ensures Quiet()
      ensures value == ReadValue(rtl, old(evals))
      ensures edges == ReadEdges(old(edges), rtl, old(evals), addr, tag, reqId)
      ensures vtime == old(vtime) + 100 * (|edges| - |old(edges)|)
    {
      ghost var w := WaitsOfRead(rtl, evals);
      var sent := SendRequest(addr, tag, reqId);
      if !sent {
        return None;
      }
      value := TakeCompletion(w);
    }

    /** The first half: both beats of the request. */
    method SendRequest(addr: U32, tag: Byte, reqId: U16) returns (sent: bool)
      requires Quiet()
      modifies this
      ensures Quiet()
      ensures var w := WaitsOfRead(rtl, old(evals));
              && (sent <==> RequestTaken(w))
              && edges == RequestEdges(old(edges), w, addr, tag, reqId)
              && (sent ==> evals == w.drain && pins == DrainPins(addr).(txReady := false))
      ensures vtime == old(vtime) + 100 * (|edges| - |old(edges)|)
    {
      hide Waits, UpAt, Beat64, HeaderWord, WordAligned, Sample;
      pins := pins.(rxData := Beat64(1, HeaderWord(reqId, tag)), rxKeep := 0xFF);
      pins := pins.(beat := 0, rxLast := false, rxValid := true);
      Eval();
      var n := Await(RxReady);
      if n >= MAX_TRANSACTION_CYCLES {
        pins := pins.(rxValid := false);
        return false;
      }

      pins := pins.(rxData := WordAligned(addr), rxKeep := 0x0F, beat := 1, rxLast := true);
      Eval();
      n := Await(RxReady);
      if n >= MAX_TRANSACTION_CYCLES {
        pins := pins.(rxValid := false);
        return false;
      }
      Cycle();
      pins := pins.(rxValid := false, rxLast := false);
      Eval();
      sent := true;
    }

    /** The second half: both beats of the completion. */
    method TakeCompletion(ghost w: ReadWaits) returns (value: Option<U32>)
      requires Quiet()
      requires w.drain == evals && w.cpl0 == Waits(rtl, TxValid, evals)
      requires w.cpl1 == Waits(rtl, TxValid, evals + 3 * w.cpl0 + 3)
      requires w.sampled == evals + 3 * w.cpl0 + 3 + 3 * w.cpl1
      modifies this
      ensures Quiet()
      ensures value == if w.cpl0 < 100 && w.cpl1 < 100
                       then Some(TxData(rtl, w.sampled) / 0x1_0000_0000) else None
      ensures edges == CompletionEdges(old(edges), w, old(pins).(txReady := true))
      ensures vtime == old(vtime) + 100 * (|edges| - |old(edges)|)
    {
      hide Waits, UpAt, TxData;
      value := None;
      pins := pins.(txReady := true);
      var n := Await(TxValid);
      if n >= MAX_TRANSACTION_CYCLES {
        pins := pins.(txReady := false);
        return;
      }
      if evals in rtl.valid {
        Cycle();
        Eval();
        n := Await(TxValid);
        if n >= MAX_TRANSACTION_CYCLES {
          pins := pins.(txReady := false);
          return;
        }
        if evals in rtl.valid {
          value := Some(TxData(rtl, evals) / 0x1_0000_0000);
          Cycle();
        }
      }
      pins := pins.(txReady := false);
      Eval();
    }
  }
}
