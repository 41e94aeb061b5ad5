/** Bridge, simulator and listener over their byte streams (src/bridge/pcie_cosim_bridge.cpp,
    src/bridge/pcie_cosim_if.cpp), from the end of set-up on: a transition system in which the three
    sides move in any order. Inductions over runs are written out: the lemmas about them carry
    {:induction false}, so that none leans on a hypothesis Dafny supplies. */
module SoftTlp {
  import opened Protocol
  import opened Device

  /** The state of the programs and of the sockets. `tran` is the next tag; `waiting` is the request of a
      read whose caller has not got its answer; `vectors` are the vfu_irq_trigger calls made. */
  datatype Wires = Wires(
    tran: Byte, waiting: Option<Header>,
    toSim: seq<Byte>, toBridge: seq<Byte>, async: seq<Byte>,
    dev: Regs, vectors: seq<nat>)

  /** One move. Pads are the bytes nobody sets. */
  datatype Event =
    | Issue(a: Access, pad: Byte)      // pcie_bridge up to the end of its send
    | Serve(ackPad: Byte, msgPad: Byte) // one packet through the simulator's main loop
    | Answer                           // the waiting read receives a packet
    | GiveUp                           // the waiting read times out before a packet reaches it
    | Hear                             // the listener takes one message

  /** How a read call ended: `k` is its place among all requests, `turn` the number of answers taken
      before it, `ok` whether it returned data. */
  datatype Return = Return(k: int, turn: nat, timedOut: bool, ok: bool, data: seq<Byte>)

  /** What happened so far; nothing in Step depends on it. */
  datatype History = History(
    issued: seq<Access>, sent: seq<Packet>, served: nat,
    replies: seq<Packet>, answered: nat, messages: seq<Packet>, heard: nat,
    ended: seq<Return>)

  /** A packet is the answer to the waiting request: type, tag and count match. */
  predicate Matches(resp: Header, request: Header) {
    resp.kind == ACK && resp.tag == request.tag && resp.count == request.count
  }

  predicate Enabled(w: Wires, e: Event) {
    match e
    case Issue(a, _) => w.waiting.None? && AccessOk(a)
    case Serve(_, _) => RegsOk(w.dev) && Parse(ToSim, w.toSim).Some?
                        && IsMemory(Parse(ToSim, w.toSim).value.0.h.kind)
                        && AccessOk(AccessOf(Parse(ToSim, w.toSim).value.0))
    case Answer => w.waiting.Some? && Parse(ToBridge, w.toBridge).Some?
    case GiveUp => w.waiting.Some?
    case Hear => Parse(ToBridge, w.async).Some? && |Parse(ToBridge, w.async).value.0.payload| >= 4
  }

  /** The tag of the k-th request: the 8-bit counter starts at 1 and wraps. */
  function TagOf(k: nat): Byte {
    (1 + k) % 256
  }

  /** The packets serving `p`, which stands for access `a`, adds to the main and the async stream. */
  function ServedReply(p: Packet, a: Access, dev: Regs, pad: Byte): (r: seq<Packet>)
    requires RegsOk(dev) && AccessOk(a)
    ensures |r| <= 1
  {
    if IsRead(p.h.kind) then [Acknowledgement(p.h, BytesOf(ReadWords(dev, a)), pad)] else []
  }

  function ServedMessage(a: Access, pad: Byte): (r: seq<Packet>)
    requires AccessOk(a)
    ensures |r| <= 1
  {
    if RaisesInterrupt(a) then [InterruptMessage(pad)] else []
  }

  // What each move does, given the packet it takes off a stream and the bytes behind it.

  function Issued(w: Wires, p: Packet, write: bool): Wires {
    w.(tran := (w.tran + 1) % 256, toSim := w.toSim + Encode(p), waiting := if write then None else Some(p.h))
  }

  function Served(w: Wires, p: Packet, a: Access, rest: seq<Byte>, ackPad: Byte, msgPad: Byte): Wires
    requires RegsOk(w.dev) && AccessOk(a)
  {
    w.(toSim := rest, dev := After(w.dev, a),
    toBridge := w.toBridge + EncodeAll(ServedReply(p, a, w.dev, ackPad)),
    async := w.async + EncodeAll(ServedMessage(a, msgPad)))
  }

  function Heard(w: Wires, p: Packet, rest: seq<Byte>): Wires
    requires |p.payload| >= 4
  {
    w.(async := rest, vectors := if p.h.kind == MSG then w.vectors + [FromLe(p.payload[..4])] else w.vectors)
  }

  function Step(w: Wires, e: Event): Wires
    requires Enabled(w, e)
  {
    match e
    case Issue(a, pad) => Issued(w, RequestPacket(a, w.tran, pad), a.write)
    case Serve(ackPad, msgPad) =>
      var (p, rest) := Parse(ToSim, w.toSim).value;
      Served(w, p, AccessOf(p), rest, ackPad, msgPad)
    case Answer => w.(toBridge := Parse(ToBridge, w.toBridge).value.1, waiting := None)
    case GiveUp => w.(waiting := None)
    case Hear =>
      var (p, rest) := Parse(ToBridge, w.async).value;
      Heard(w, p, rest)
  }

  /** The return of the waiting call, if it takes packet `p`. */
  function TakenBy(h: History, p: Packet, request: Header): Return {
    Return(|h.issued| - 1, h.answered, false, Matches(p.h, request), p.payload)
  }

  function RecordServed(h: History, p: Packet, a: Access, dev: Regs, ackPad: Byte, msgPad: Byte): History
    requires RegsOk(dev) && AccessOk(a)
  {
    h.(served := h.served + 1,
    replies := h.replies + ServedReply(p, a, dev, ackPad),
    messages := h.messages + ServedMessage(a, msgPad))
  }

  function Record(h: History, w: Wires, e: Event): History
    requires Enabled(w, e)
  {
    match e
    case Issue(a, pad) => h.(issued := h.issued + [a], sent := h.sent + [RequestPacket(a, w.tran, pad)])
    case Serve(ackPad, msgPad) =>
      var p := Parse(ToSim, w.toSim).value.0;
      RecordServed(h, p, AccessOf(p), w.dev, ackPad, msgPad)
    case Answer =>
      h.(answered := h.answered + 1,
      ended := h.ended + [TakenBy(h, Parse(ToBridge, w.toBridge).value.0, w.waiting.value)])
    case GiveUp =>
      h.(ended := h.ended + [Return(|h.issued| - 1, h.answered, true, false, [])])
    case Hear => h.(heard := h.heard + 1)
  }

  /** Just after set-up. */
  function Start(d0: Regs): Wires {
    Wires(1, None, [], [], [], d0, [])
  }

  const NO_HISTORY := History([], [], 0, [], 0, [], 0, [])

  datatype Config = Config(w: Wires, h: History)

  /** `es` is a run from the start that ends in `c`: every event was enabled when it happened. */
  ghost predicate Reaches(d0: Regs, es: seq<Event>, c: Config) {
    if es == [] then c == Config(Start(d0), NO_HISTORY)
    else
      var n := |es| - 1;
      exists b: Config :: Reaches(d0, es[..n], b) && Moves(b, es[n], c)
  }

  predicate Moves(b: Config, e: Event, c: Config) {
    Enabled(b.w, e) && c == Config(Step(b.w, e), Record(b.h, b.w, e))
  }

  lemma {:induction false} Extend(d0: Regs, es: seq<Event>, b: Config, e: Event, c: Config)
    requires Reaches(d0, es, b) && Moves(b, e, c)
    ensures Reaches(d0, es + [e], c)
  {
    assert (es + [e])[..|es|] == es;
  }

  // ---- The invariant ----

  /** Places of the reads among the first `n` requests. */
  function Reads(issued: seq<Access>, n: nat): (r: seq<nat>)
    requires n <= |issued|
    ensures |r| <= n && forall i :: 0 <= i < |r| ==> r[i] < n && !issued[r[i]].write
  {
    if n == 0 then []
    else if issued[n - 1].write then Reads(issued, n - 1) else Reads(issued, n - 1) + [n - 1]
  }

  /** Request packet `p` is the one pcie_bridge makes of the k-th access. */
  predicate IsRequest(p: Packet, a: Access, k: nat) {
    AccessOk(a) && p == RequestPacket(a, TagOf(k), p.h.pad)
  }

  predicate SentOk(issued: seq<Access>, sent: seq<Packet>) {
    && |sent| == |issued| && AllOk(issued)
    && forall k :: 0 <= k < |sent| ==> IsRequest(sent[k], issued[k], k)
  }

  /** Reply `p` is the answer the sequential device gives to request `k`. */
  predicate IsReply(d0: Regs, issued: seq<Access>, sent: seq<Packet>, p: Packet, k: nat)
    requires RegsOk(d0) && SentOk(issued, sent)
  {
    k < |issued| && !issued[k].write
    && p == Acknowledgement(sent[k].h, Response(d0, issued, k), p.h.pad)
  }

  /** The replies so far answer the reads among the first `served` requests, in order. */
  predicate RepliesOk(d0: Regs, issued: seq<Access>, sent: seq<Packet>, served: nat, replies: seq<Packet>)
    requires RegsOk(d0) && SentOk(issued, sent) && served <= |issued|
  {
    var ks := Reads(issued, served);
    && |replies| == |ks|
    && forall r :: 0 <= r < |ks| ==> IsReply(d0, issued, sent, replies[r], ks[r])
  }

  predicate MessagesOk(messages: seq<Packet>) {
    forall k :: 0 <= k < |messages| ==> messages[k] == InterruptMessage(messages[k].h.pad)
  }

  /** What one return of a read call can be: it took the reply to the oldest read not yet answered, and
      was content with it exactly when that read's tag and count are its own. */
  predicate ReturnOk(d0: Regs, issued: seq<Access>, r: Return)
    requires RegsOk(d0) && AllOk(issued)
  {
    && 0 <= r.k < |issued| && !issued[r.k].write
    && if r.timedOut then !r.ok else
         && r.turn < |Reads(issued, r.k + 1)|
         && var j := Reads(issued, r.k + 1)[r.turn];
         && (r.ok <==> (r.k - j) % 256 == 0 && issued[j].count == issued[r.k].count)
         && r.data == Response(d0, issued, j)
  }

  predicate ReturnsOk(d0: Regs, issued: seq<Access>, ended: seq<Return>)
    requires RegsOk(d0) && AllOk(issued)
  {
    forall i :: 0 <= i < |ended| ==> ReturnOk(d0, issued, ended[i])
  }

  predicate WaitingOk(waiting: Option<Header>, issued: seq<Access>, sent: seq<Packet>, answered: nat)
    requires SentOk(issued, sent)
  {
    waiting.Some? ==>
      && issued != [] && !issued[|issued| - 1].write
      && waiting.value == sent[|sent| - 1].h
      && answered < |Reads(issued, |issued|)|
  }

  predicate RequestSide(w: Wires, h: History) {
    && SentOk(h.issued, h.sent) && h.served <= |h.issued|
    && w.tran == TagOf(|h.issued|)
    && w.toSim == EncodeAll(h.sent[h.served..])
  }

  predicate ReplySide(d0: Regs, w: Wires, h: History)
    requires RegsOk(d0) && SentOk(h.issued, h.sent) && h.served <= |h.issued|
  {
    && w.dev == AfterAll(d0, h.issued[..h.served])
    && RepliesOk(d0, h.issued, h.sent, h.served, h.replies) && h.answered <= |h.replies|
    && w.toBridge == EncodeAll(h.replies[h.answered..])
  }

  predicate MessageSide(w: Wires, h: History)
    requires AllOk(h.issued) && h.served <= |h.issued|
  {
    && MessagesOk(h.messages) && h.heard <= |h.messages|
    && |h.messages| == Interrupts(h.issued[..h.served])
    && w.async == EncodeAll(h.messages[h.heard..])
    && w.vectors == seq(h.heard, _ => 0)
  }

  predicate Good(d0: Regs, c: Config)
    requires RegsOk(d0)
  {
    && RequestSide(c.w, c.h)
    && ReplySide(d0, c.w, c.h)
    && WaitingOk(c.w.waiting, c.h.issued, c.h.sent, c.h.answered)
    && MessageSide(c.w, c.h)
    && ReturnsOk(d0, c.h.issued, c.h.ended)
  }

  // ---- Streams ----

  lemma StreamSnoc(ps: seq<Packet>, n: nat, p: Packet)
    requires n <= |ps|
    ensures EncodeAll((ps + [p])[n..]) == EncodeAll(ps[n..]) + Encode(p)
  {
    EncodeAllSnoc(ps[n..], p);
    assert (ps + [p])[n..] == ps[n..] + [p];
  }

  lemma {:induction false} StreamJoin(ps: seq<Packet>, n: nat, more: seq<Packet>)
    requires n <= |ps| && |more| <= 1
    ensures EncodeAll((ps + more)[n..]) == EncodeAll(ps[n..]) + EncodeAll(more)
  {
    if more == [] {
      assert (ps + more)[n..] == ps[n..];
    } else {
      StreamSnoc(ps, n, more[0]);
      assert more == [more[0]];
      EncodeOne(more[0]);
    }
  }

  lemma EncodeOne(p: Packet)
    ensures EncodeAll([p]) == Encode(p)
  {
    assert [p][1..] == [];
    assert EncodeAll([p][1..]) == [];
  }

  /** The first packet of a stream that is not empty. */
  lemma StreamHead(d: Direction, ps: seq<Packet>, n: nat)
    requires n <= |ps| && EncodeAll(ps[n..]) != []
    requires n < |ps| ==> WellFormed(d, ps[n])
    ensures n < |ps| && Parse(d, EncodeAll(ps[n..])) == Some((ps[n], EncodeAll(ps[n + 1..])))
  {
    ParseEncode(d, ps[n], EncodeAll(ps[n..][1..]));
    assert ps[n..][1..] == ps[n + 1..];
  }

  // ---- Lists of requests and replies ----

  lemma {:induction false} ReadsPrefix(issued: seq<Access>, more: seq<Access>, n: nat)
    requires n <= |issued|
    ensures Reads(issued + more, n) == Reads(issued, n)
  {
    if n > 0 {
      ReadsPrefix(issued, more, n - 1);
    }
  }

  lemma {:induction false} ReadsGrow(issued: seq<Access>, m: nat, n: nat)
    requires m <= n <= |issued|
    ensures Reads(issued, m) <= Reads(issued, n)
  {
    if m < n {
      ReadsGrow(issued, m, n - 1);
    }
  }

  lemma ResponsePrefix(d0: Regs, issued: seq<Access>, a: Access, k: nat)
    requires RegsOk(d0) && AllOk(issued) && AccessOk(a) && k < |issued|
    ensures AllOk(issued + [a])
    ensures Response(d0, issued + [a], k) == Response(d0, issued, k)
  {
    assert (issued + [a])[..k] == issued[..k];
  }

  lemma SentSnoc(issued: seq<Access>, sent: seq<Packet>, a: Access, p: Packet)
    requires SentOk(issued, sent) && IsRequest(p, a, |issued|)
    ensures SentOk(issued + [a], sent + [p])
  {
    forall k | 0 <= k <= |sent|
      ensures IsRequest((sent + [p])[k], (issued + [a])[k], k)
    {
      if k < |sent| {
        assert IsRequest(sent[k], issued[k], k);
      }
    }
  }

  lemma ReplyPrefix(d0: Regs, issued: seq<Access>, sent: seq<Packet>, a: Access, p: Packet,
                    q: Packet, k: nat)
    requires RegsOk(d0) && SentOk(issued, sent) && AccessOk(a) && SentOk(issued + [a], sent + [p])
    requires IsReply(d0, issued, sent, q, k)
    ensures IsReply(d0, issued + [a], sent + [p], q, k)
  {
    ResponsePrefix(d0, issued, a, k);
  }

  lemma RepliesPrefix(d0: Regs, issued: seq<Access>, sent: seq<Packet>, served: nat,
                      replies: seq<Packet>, a: Access, p: Packet)
    requires RegsOk(d0) && SentOk(issued, sent) && AccessOk(a) && SentOk(issued + [a], sent + [p])
    requires served <= |issued| && RepliesOk(d0, issued, sent, served, replies)
    ensures RepliesOk(d0, issued + [a], sent + [p], served, replies)
  {
    ReadsPrefix(issued, [a], served);
    var ks := Reads(issued, served);
    forall r | 0 <= r < |ks|
      ensures IsReply(d0, issued + [a], sent + [p], replies[r], ks[r])
    {
      ReplyPrefix(d0, issued, sent, a, p, replies[r], ks[r]);
    }
  }

  lemma ReturnKept(d0: Regs, issued: seq<Access>, a: Access, r: Return)
    requires RegsOk(d0) && AllOk(issued) && AccessOk(a) && ReturnOk(d0, issued, r)
    ensures AllOk(issued + [a])
    ensures ReturnOk(d0, issued + [a], r)
  {
    ReadsPrefix(issued, [a], r.k + 1);
    if !r.timedOut {
      ResponsePrefix(d0, issued, a, Reads(issued, r.k + 1)[r.turn]);
    }
  }

  lemma ReturnsKept(d0: Regs, issued: seq<Access>, a: Access, ended: seq<Return>)
    requires RegsOk(d0) && AllOk(issued) && AccessOk(a) && ReturnsOk(d0, issued, ended)
    ensures AllOk(issued + [a])
    ensures ReturnsOk(d0, issued + [a], ended)
  {
    forall i | 0 <= i < |ended|
      ensures ReturnOk(d0, issued + [a], ended[i])
    {
      ReturnKept(d0, issued, a, ended[i]);
    }
  }

  /** Serving the next request adds the right reply, if it is a read, and nothing otherwise. */
  lemma {:induction false} ReplyAdded(d0: Regs, issued: seq<Access>, sent: seq<Packet>, k: nat, replies: seq<Packet>,
                                      pad: Byte)
    requires RegsOk(d0) && SentOk(issued, sent) && k < |issued|
    requires RepliesOk(d0, issued, sent, k, replies)
    requires IsRead(sent[k].h.kind) == !issued[k].write
    ensures RepliesOk(d0, issued, sent, k + 1,
                      replies + ServedReply(sent[k], issued[k], AfterAll(d0, issued[..k]), pad))
  {
    var more := ServedReply(sent[k], issued[k], AfterAll(d0, issued[..k]), pad);
    var ks, ks' := Reads(issued, k), Reads(issued, k + 1);
    forall r | 0 <= r < |ks'|
      ensures IsReply(d0, issued, sent, (replies + more)[r], ks'[r])
    {
      if r < |ks| {
        assert IsReply(d0, issued, sent, replies[r], ks[r]);
      }
    }
  }

  lemma RequestNamesAccess(issued: seq<Access>, sent: seq<Packet>, k: nat)
    requires SentOk(issued, sent) && k < |issued|
    ensures AccessOf(sent[k]) == issued[k] && WellFormed(ToSim, sent[k])
    ensures IsMemory(sent[k].h.kind) && IsRead(sent[k].h.kind) == !issued[k].write
    ensures sent[k].h.tag == TagOf(k) && sent[k].h.count == issued[k].count
  {
    assert IsRequest(sent[k], issued[k], k);
    PacketNamesAccess(issued[k], TagOf(k), sent[k].h.pad);
  }

  lemma ReplyWellFormed(d0: Regs, issued: seq<Access>, sent: seq<Packet>, p: Packet, k: nat)
    requires RegsOk(d0) && SentOk(issued, sent) && IsReply(d0, issued, sent, p, k)
    ensures WellFormed(ToBridge, p) && p.payload == Response(d0, issued, k)
    ensures p.h.kind == ACK && p.h.tag == TagOf(k) && p.h.count == issued[k].count
  {
    RequestNamesAccess(issued, sent, k);
  }

  lemma TagsAgree(j: nat, k: nat)
    requires j <= k
    ensures TagOf(j) == TagOf(k) <==> (k - j) % 256 == 0
  {
  }

  // ---- Every move keeps the invariant ----

  lemma NextTag(k: nat)
    ensures (TagOf(k) + 1) % 256 == TagOf(k + 1)
  {
  }

  lemma IssueRequestSide(w: Wires, h: History, e: Event)
    requires RequestSide(w, h) && Enabled(w, e) && e.Issue?
    ensures RequestSide(Step(w, e), Record(h, w, e))
  {
    var p := RequestPacket(e.a, w.tran, e.pad);
    SentSnoc(h.issued, h.sent, e.a, p);
    StreamSnoc(h.sent, h.served, p);
    NextTag(|h.issued|);
  }

  lemma IssueWaiting(w: Wires, h: History, e: Event)
    requires Enabled(w, e) && e.Issue? && RequestSide(w, h)
    requires RequestSide(Step(w, e), Record(h, w, e))
    requires h.answered <= |Reads(h.issued, |h.issued|)|
    ensures var h' := Record(h, w, e);
            WaitingOk(Step(w, e).waiting, h'.issued, h'.sent, h'.answered)
  {
    ReadsPrefix(h.issued, [e.a], |h.issued|);
  }

  lemma IssueReplySide(d0: Regs, w: Wires, h: History, e: Event)
    requires RegsOk(d0) && RequestSide(w, h) && ReplySide(d0, w, h) && Enabled(w, e) && e.Issue?
    requires RequestSide(Step(w, e), Record(h, w, e))
    ensures ReplySide(d0, Step(w, e), Record(h, w, e))
    ensures h.answered <= |Reads(h.issued, |h.issued|)|
  {
    RepliesPrefix(d0, h.issued, h.sent, h.served, h.replies, e.a, RequestPacket(e.a, w.tran, e.pad));
    assert (h.issued + [e.a])[..h.served] == h.issued[..h.served];
    ReadsGrow(h.issued, h.served, |h.issued|);
    hide Reads, AfterAll, EncodeAll, IsReply;
  }

  lemma IssueMessageSide(w: Wires, h: History, e: Event)
    requires RequestSide(w, h) && MessageSide(w, h) && Enabled(w, e) && e.Issue?
    requires RequestSide(Step(w, e), Record(h, w, e))
    ensures MessageSide(Step(w, e), Record(h, w, e))
  {
    hide Interrupts, EncodeAll;
    assert (h.issued + [e.a])[..h.served] == h.issued[..h.served];
  }

  lemma IssueKeeps(d0: Regs, c: Config, e: Event)
    requires RegsOk(d0) && Good(d0, c) && Enabled(c.w, e) && e.Issue?
    ensures Good(d0, Config(Step(c.w, e), Record(c.h, c.w, e)))
  {
    var h := c.h;
    hide Reads, ReplySide, MessageSide, ReturnsOk, EncodeAll, IsRequest;
    IssueRequestSide(c.w, h, e);
    IssueReplySide(d0, c.w, h, e);
    IssueMessageSide(c.w, h, e);
    ReturnsKept(d0, h.issued, e.a, h.ended);
    IssueWaiting(c.w, h, e);
  }

  /** The simulator's next packet is the oldest request it has not served. */
  lemma NextRequest(w: Wires, h: History)
    requires RequestSide(w, h) && w.toSim != []
    ensures h.served < |h.sent| && AccessOf(h.sent[h.served]) == h.issued[h.served]
    ensures IsMemory(h.sent[h.served].h.kind) && IsRead(h.sent[h.served].h.kind) == !h.issued[h.served].write
    ensures Parse(ToSim, w.toSim) == Some((h.sent[h.served], EncodeAll(h.sent[h.served + 1..])))
  {
    if h.served < |h.sent| {
      RequestNamesAccess(h.issued, h.sent, h.served);
    }
    StreamHead(ToSim, h.sent, h.served);
  }

  lemma {:induction false} DeviceAfterOneMore(d0: Regs, issued: seq<Access>, k: nat)
    requires RegsOk(d0) && AllOk(issued) && k < |issued|
    ensures AfterAll(d0, issued[..k + 1]) == After(AfterAll(d0, issued[..k]), issued[k])
    ensures Interrupts(issued[..k + 1]) == Interrupts(issued[..k]) + (if RaisesInterrupt(issued[k]) then 1 else 0)
  {
    assert issued[..k + 1][..k] == issued[..k];
  }

  lemma {:induction false} MoreReplies(d0: Regs, w: Wires, h: History, w': Wires, h': History, more: seq<Packet>)
    requires RegsOk(d0) && SentOk(h.issued, h.sent) && h.served < |h.issued| && |more| <= 1
    requires ReplySide(d0, w, h)
    requires h'.issued == h.issued && h'.sent == h.sent && h'.served == h.served + 1
    requires h'.replies == h.replies + more && h'.answered == h.answered
    requires w'.dev == AfterAll(d0, h.issued[..h.served + 1]) && w'.toBridge == w.toBridge + EncodeAll(more)
    requires RepliesOk(d0, h.issued, h.sent, h.served + 1, h.replies + more)
    ensures ReplySide(d0, w', h')
  {
    StreamJoin(h.replies, h.answered, more);
  }

  lemma ServedReplySide(d0: Regs, w: Wires, h: History, rest: seq<Byte>, pad: Byte, mpad: Byte)
    requires RegsOk(d0) && RequestSide(w, h) && ReplySide(d0, w, h) && h.served < |h.issued|
    requires IsRead(h.sent[h.served].h.kind) == !h.issued[h.served].write
    ensures var p, a := h.sent[h.served], h.issued[h.served];
            ReplySide(d0, Served(w, p, a, rest, pad, mpad), RecordServed(h, p, a, w.dev, pad, mpad))
  {
    var k := h.served;
    var p, a := h.sent[k], h.issued[k];
    DeviceAfterOneMore(d0, h.issued, k);
    hide AfterAll, RepliesOk, Reads, EncodeAll, After;
    ReplyAdded(d0, h.issued, h.sent, k, h.replies, pad);
    MoreReplies(d0, w, h, Served(w, p, a, rest, pad, mpad), RecordServed(h, p, a, w.dev, pad, mpad),
                ServedReply(p, a, w.dev, pad));
  }

  lemma {:induction false} MoreMessages(w: Wires, h: History, w': Wires, h': History, more: seq<Packet>)
    requires AllOk(h.issued) && h.served < |h.issued| && |more| <= 1 && MessageSide(w, h)
    requires h'.issued == h.issued && h'.served == h.served + 1
    requires h'.messages == h.messages + more && h'.heard == h.heard && w'.vectors == w.vectors
    requires w'.async == w.async + EncodeAll(more) && MessagesOk(more)
    requires Interrupts(h.issued[..h.served + 1]) == Interrupts(h.issued[..h.served]) + |more|
    ensures MessageSide(w', h')
  {
    StreamJoin(h.messages, h.heard, more);
  }

  lemma ServedMessageSide(w: Wires, h: History, rest: seq<Byte>, pad: Byte, mpad: Byte)
    requires RequestSide(w, h) && MessageSide(w, h) && h.served < |h.issued| && RegsOk(w.dev)
    ensures var p, a := h.sent[h.served], h.issued[h.served];
            MessageSide(Served(w, p, a, rest, pad, mpad), RecordServed(h, p, a, w.dev, pad, mpad))
  {
    var k := h.served;
    var p, a := h.sent[k], h.issued[k];
    SentSizes(h.issued, h.sent);
    hide AfterAll, EncodeAll, After, Interrupts, RaisesInterrupt, SentOk, RequestSide, AllOk, RegsOk;
    DeviceAfterOneMore(w.dev, h.issued, k);
    MoreMessages(w, h, Served(w, p, a, rest, pad, mpad), RecordServed(h, p, a, w.dev, pad, mpad),
                 ServedMessage(a, mpad));
  }

  lemma ServedKeeps(d0: Regs, c: Config, rest: seq<Byte>, pad: Byte, mpad: Byte)
    requires RegsOk(d0) && Good(d0, c) && c.h.served < |c.h.issued|
    requires IsRead(c.h.sent[c.h.served].h.kind) == !c.h.issued[c.h.served].write
    requires rest == EncodeAll(c.h.sent[c.h.served + 1..])
    ensures var p, a := c.h.sent[c.h.served], c.h.issued[c.h.served];
            Good(d0, Config(Served(c.w, p, a, rest, pad, mpad), RecordServed(c.h, p, a, c.w.dev, pad, mpad)))
  {
    ServedReplySide(d0, c.w, c.h, rest, pad, mpad);
    ServedMessageSide(c.w, c.h, rest, pad, mpad);
  }

  lemma ServeKeeps(d0: Regs, c: Config, e: Event)
    requires RegsOk(d0) && Good(d0, c) && Enabled(c.w, e) && e.Serve?
    ensures Good(d0, Config(Step(c.w, e), Record(c.h, c.w, e)))
  {
    NextRequest(c.w, c.h);
    ServedKeeps(d0, c, EncodeAll(c.h.sent[c.h.served + 1..]), e.ackPad, e.msgPad);
  }

  /** The packet a waiting read gets is the reply to the oldest read not yet answered. */
  lemma NextReply(d0: Regs, c: Config)
    requires RegsOk(d0) && Good(d0, c) && c.w.toBridge != []
    ensures var h := c.h;
            && h.answered < |h.replies| && h.answered < |Reads(h.issued, |h.issued|)|
            && var j, p := Reads(h.issued, |h.issued|)[h.answered], h.replies[h.answered];
            && j < h.served && IsReply(d0, h.issued, h.sent, p, j)
            && Parse(ToBridge, c.w.toBridge) == Some((p, EncodeAll(h.replies[h.answered + 1..])))
  {
    var h := c.h;
    var ks := Reads(h.issued, h.served);
    ReadsGrow(h.issued, h.served, |h.issued|);
    if h.answered < |h.replies| {
      assert IsReply(d0, h.issued, h.sent, h.replies[h.answered], ks[h.answered]);
      ReplyWellFormed(d0, h.issued, h.sent, h.replies[h.answered], ks[h.answered]);
    }
    StreamHead(ToBridge, h.replies, h.answered);
  }

  /** The reply to request `j` satisfies the caller of request `k` exactly when the tags coincide. */
  lemma MatchesByTag(d0: Regs, issued: seq<Access>, sent: seq<Packet>, p: Packet, j: nat, k: nat)
    requires RegsOk(d0) && SentOk(issued, sent) && IsReply(d0, issued, sent, p, j) && j <= k < |issued|
    ensures Matches(p.h, sent[k].h) <==> (k - j) % 256 == 0 && issued[j].count == issued[k].count
  {
    RequestNamesAccess(issued, sent, k);
    ReplyWellFormed(d0, issued, sent, p, j);
    TagsAgree(j, k);
  }

  lemma SentSizes(issued: seq<Access>, sent: seq<Packet>)
    requires SentOk(issued, sent)
    ensures AllOk(issued) && |sent| == |issued|
  {
  }

  lemma {:induction false} MakesReturn(d0: Regs, issued: seq<Access>, turn: nat, ok: bool, data: seq<Byte>)
    requires RegsOk(d0) && AllOk(issued) && issued != [] && !issued[|issued| - 1].write
    requires turn < |Reads(issued, |issued|)|
    requires var j, k := Reads(issued, |issued|)[turn], |issued| - 1;
             && (ok <==> (k - j) % 256 == 0 && issued[j].count == issued[k].count)
             && data == Response(d0, issued, j)
    ensures ReturnOk(d0, issued, Return(|issued| - 1, turn, false, ok, data))
  {
    hide Reads, Response, AllOk, RegsOk;
    assert |issued| - 1 + 1 == |issued|;
  }

  /** How the last call ends if it takes reply `p`. */
  lemma {:induction false} ReplyReturns(d0: Regs, issued: seq<Access>, sent: seq<Packet>, p: Packet, turn: nat)
    requires RegsOk(d0) && SentOk(issued, sent) && issued != [] && !issued[|issued| - 1].write
    requires turn < |Reads(issued, |issued|)|
    requires IsReply(d0, issued, sent, p, Reads(issued, |issued|)[turn])
    ensures ReturnOk(d0, issued, Return(|issued| - 1, turn, false, Matches(p.h, sent[|sent| - 1].h), p.payload))
  {
    hide *;
    SentSizes(issued, sent);
    var j, k := Reads(issued, |issued|)[turn], |issued| - 1;
    MatchesByTag(d0, issued, sent, p, j, k);
    ReplyWellFormed(d0, issued, sent, p, j);
    MakesReturn(d0, issued, turn, Matches(p.h, sent[k].h), p.payload);
  }

  lemma ReturnsSnoc(d0: Regs, issued: seq<Access>, ended: seq<Return>, r: Return)
    requires RegsOk(d0) && AllOk(issued) && ReturnsOk(d0, issued, ended) && ReturnOk(d0, issued, r)
    ensures ReturnsOk(d0, issued, ended + [r])
  {
  }

  lemma TakenReturns(d0: Regs, h: History, request: Header)
    requires RegsOk(d0) && SentOk(h.issued, h.sent) && WaitingOk(Some(request), h.issued, h.sent, h.answered)
    requires h.answered < |h.replies|
    requires IsReply(d0, h.issued, h.sent, h.replies[h.answered], Reads(h.issued, |h.issued|)[h.answered])
    requires ReturnsOk(d0, h.issued, h.ended)
    ensures ReturnsOk(d0, h.issued, h.ended + [TakenBy(h, h.replies[h.answered], request)])
  {
    hide Reads, IsReply, ReturnOk, AfterAll;
    ReplyReturns(d0, h.issued, h.sent, h.replies[h.answered], h.answered);
    ReturnsSnoc(d0, h.issued, h.ended, TakenBy(h, h.replies[h.answered], request));
  }

  lemma AnswerKeeps(d0: Regs, c: Config)
    requires RegsOk(d0) && Good(d0, c) && Enabled(c.w, Answer)
    ensures Good(d0, Config(Step(c.w, Answer), Record(c.h, c.w, Answer)))
  {
    NextReply(d0, c);
    TakenReturns(d0, c.h, c.w.waiting.value);
  }

  lemma GiveUpKeeps(d0: Regs, c: Config)
    requires RegsOk(d0) && Good(d0, c) && Enabled(c.w, GiveUp)
    ensures Good(d0, Config(Step(c.w, GiveUp), Record(c.h, c.w, GiveUp)))
  {
    hide Reads, RepliesOk, AfterAll, EncodeAll, Interrupts;
    ReturnsSnoc(d0, c.h.issued, c.h.ended, Return(|c.h.issued| - 1, c.h.answered, true, false, []));
  }

  lemma VectorZero()
    ensures FromLe([0, 0, 0, 0]) == 0
  {
    FieldSizes();
    LeRoundTrip(0, 4);
    assert Le(0, 4) == [0, 0, 0, 0];
  }

  /** The listener's next message is an interrupt message for vector 0. */
  lemma NextMessage(messages: seq<Packet>, n: nat)
    requires MessagesOk(messages) && n <= |messages| && EncodeAll(messages[n..]) != []
    ensures n < |messages|
    ensures Parse(ToBridge, EncodeAll(messages[n..])) == Some((messages[n], EncodeAll(messages[n + 1..])))
    ensures messages[n].h.kind == MSG && |messages[n].payload| == 4 && FromLe(messages[n].payload[..4]) == 0
  {
    StreamHead(ToBridge, messages, n);
    VectorZero();
    hide Parse, EncodeAll, FromLe;
    assert messages[n].payload[..4] == [0, 0, 0, 0];
  }

  lemma HearMessageSide(w: Wires, h: History)
    requires AllOk(h.issued) && h.served <= |h.issued| && MessageSide(w, h) && Enabled(w, Hear)
    ensures MessageSide(Step(w, Hear), Record(h, w, Hear))
  {
    NextMessage(h.messages, h.heard);
    hide EncodeAll, Interrupts, Parse, FromLe;
  }

  lemma HearKeeps(d0: Regs, c: Config)
    requires RegsOk(d0) && Good(d0, c) && Enabled(c.w, Hear)
    ensures Good(d0, Config(Step(c.w, Hear), Record(c.h, c.w, Hear)))
  {
    HearMessageSide(c.w, c.h);
    hide Reads, RepliesOk, ReturnsOk, AfterAll, EncodeAll, MessageSide, Parse;
  }

  lemma {:induction false} RunsAreGood(d0: Regs, es: seq<Event>, c: Config)
    requires RegsOk(d0) && Reaches(d0, es, c)
    ensures Good(d0, c)
  {
    if es == [] {
    } else {
      var n := |es| - 1;
      var b: Config :| Reaches(d0, es[..n], b) && Moves(b, es[n], c);
      RunsAreGood(d0, es[..n], b);
      match es[n] {
        case Issue(_, _) => IssueKeeps(d0, b, es[n]);
        case Serve(_, _) => ServeKeeps(d0, b, es[n]);
        case Answer => AnswerKeeps(d0, b);
        case GiveUp => GiveUpKeeps(d0, b);
        case Hear => HearKeeps(d0, b);
      }
    }
  }
}
