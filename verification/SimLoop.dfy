/** The simulator's packet loop (src/bridge/pcie_cosim_if.cpp): `receive` polls the two accepted sockets,
    `exchange` acts on one packet, and the loop runs while there is an active socket. */
module SimLoop {
  import opened Protocol
  import opened Receive
  import opened Device

  const RX_SIZE: nat := MAX_COUNT

  type Index = i: nat | i < 2

  /** channel[i].socket[1], activeSocket, what each socket has yet to deliver and what was sent on it; the
      requests handed to doRead and doWrite so far, and the registers behind them. `overrun` says that a
      read asked for more than the packet buffer holds: what the code does from there on is undefined. */
  datatype Loop = Loop(
    fd: seq<int>, active: int, queue: seq<seq<Event>>, out: seq<seq<Byte>>,
    served: seq<Packet>, dev: Regs, overrun: bool)

  /** Old bytes of the packet buffer. */
  type Stale = s: seq<Byte> | |s| == 3 witness [0, 0, 0]

  /** What one exchange finds: the sockets poll reports readable, the header bytes nobody sets, and what the
      buffer holds behind the last whole word of a read. */
  datatype Turn = Turn(in0: bool, in1: bool, ackPad: Byte, msgPad: Byte, stale: Stale)

  /** The accepted sockets have no receive timeout. */
  predicate Blocking(q: seq<Event>) {
    QueueOk(q) && forall k :: 0 <= k < |q| ==> !q[k].Eagain?
  }

  /** Each socket is closed (-1) or a descriptor of its own, and the active one, if any, is open. */
  predicate Ok(l: Loop) {
    && |l.fd| == 2 && |l.queue| == 2 && |l.out| == 2 && RegsOk(l.dev) && Blocking(l.queue[0]) && Blocking(l.queue[1])
    && (l.fd[0] == -1 || l.fd[0] > 0) && (l.fd[1] == -1 || l.fd[1] > 0)
    && (l.fd[0] == l.fd[1] ==> l.fd[0] == -1)
    && (l.active == -1 || (l.active > 0 && (l.active == l.fd[0] || l.active == l.fd[1])))
  }

  // ---- Taking one packet ----

  datatype Taken = Failed(rest: seq<Event>) | TooBig(rest: seq<Event>) | Took(p: Packet, rest: seq<Event>)

  lemma {:induction false} BlockingReceived(q: seq<Event>, len: nat, got: seq<Byte>)
    requires Blocking(q) && |got| < len
    ensures var o := Received(q, len, got);
            && Blocking(o.rest)
            && (o.code < 0 || (o.code == len && |o.got| == len))
    decreases |q|
  {
    if q != [] {
      match q[0] {
        case Eintr => BlockingReceived(q[1..], len, got);
        case Fault =>
        case Chunk(b) => if |b| < len - |got| { BlockingReceived(q[1..], len, got + b); }
      }
    }
  }

  predicate Oversized(h: Header) {
    IsWrite(h.kind) && h.count > RX_SIZE
  }

  function Take(q: seq<Event>): (t: Taken)
    requires Blocking(q)
    ensures Blocking(t.rest)
  {
    BlockingReceived(q, HEADER_SIZE, []);
    var o := Received(q, HEADER_SIZE, []);
    if o.code < 0 then Failed(o.rest)
    else
      var h := DecodeHeader(o.got);
      if !CarriesPayload(ToSim, h) then Took(Packet(h, []), o.rest)
      else if h.count > RX_SIZE then TooBig(o.rest)
      else
        BlockingReceived(o.rest, h.count, []);
        var o2 := Received(o.rest, h.count, []);
        if o2.code < 0 then Failed(o2.rest) else Took(Packet(h, o2.got), o2.rest)
  }

  lemma TookFits(q: seq<Event>)
    requires Blocking(q) && Take(q).Took?
    ensures var p := Take(q).p;
            if IsWrite(p.h.kind) then |p.payload| == p.h.count <= RX_SIZE else p.payload == []
  {
    BlockingReceived(q, HEADER_SIZE, []);
    hide Received;
    var o := Received(q, HEADER_SIZE, []);
    var h := DecodeHeader(o.got);
    if CarriesPayload(ToSim, h) && h.count <= RX_SIZE {
      BlockingReceived(o.rest, h.count, []);
    }
  }

  /** What is taken depends on the clear bytes alone: the packet they parse to, unless its payload would
      not fit, in which case only the header is gone. */
  lemma {:induction false} TakeIsParse(q: seq<Event>)
    requires Blocking(q)
    ensures var clear := Clear(q);
            if |clear| < HEADER_SIZE then Take(q).Failed?
            else if Oversized(DecodeHeader(clear[..HEADER_SIZE])) then
              Take(q).TooBig? && Clear(Take(q).rest) == clear[HEADER_SIZE..]
            else match Parse(ToSim, clear)
              case None => Take(q).Failed?
              case Some((p, rest)) => Take(q).Took? && Take(q).p == p && Clear(Take(q).rest) == rest
  {
    var clear, o := Clear(q), Received(q, HEADER_SIZE, []);
    BlockingReceived(q, HEADER_SIZE, []);
    ReceivedAll(q, HEADER_SIZE, []);
    if |clear| >= HEADER_SIZE {
      var h := DecodeHeader(o.got);
      assert o.got == clear[..HEADER_SIZE];
      if CarriesPayload(ToSim, h) && h.count <= RX_SIZE {
        BlockingReceived(o.rest, h.count, []);
        ReceivedAll(o.rest, h.count, []);
      }
    }
  }

  // ---- One exchange ----

  /** The socket failed: it is closed, and the other takes over only if this one was active. */
  function Closed(l: Loop, i: Index): Loop
    requires Ok(l)
  {
    var other := l.fd[1 - i];
    l.(fd := l.fd[i := -1], active := if l.active == l.fd[i] && other > 0 then other else -1)
  }

  predicate IsRequest(p: Packet) {
    IsRead(p.h.kind) || IsWrite(p.h.kind)
  }

  /** A read that would fill the packet buffer beyond its end. */
  predicate Overruns(h: Header) {
    Fills(h) && h.count > RX_SIZE
  }

  /** What follows the header of an acknowledgement: the whole words read, then old bytes of the buffer up
      to the count; nothing if the handler did not fill the buffer. */
  function ReadData(d: Regs, h: Header, stale: Stale): seq<Byte>
    requires RegsOk(d) && !Overruns(h)
  {
    if Fills(h) then BytesOf(WordsRead(d, h)) + stale[..h.count % 4] else []
  }

  /** doWrite. sendAsync writes to the async socket, if that is still open. */
  function WriteServed(l: Loop, p: Packet, msgPad: Byte): (l': Loop)
    requires Ok(l) && p.h.count <= |p.payload| <= RX_SIZE
    ensures Ok(l')
  {
    var e := Written(l.dev, p.h, p.payload);
    var out := if e.interrupt && l.fd[1] > 0 then l.out[1 := l.out[1] + Encode(InterruptMessage(msgPad))] else l.out;
    l.(served := l.served + [p], dev := e.regs, out := out)
  }

  /** doRead, and the acknowledgement on socket i, which has just become the active one. */
  function ReadServed(l: Loop, i: Index, p: Packet, ackPad: Byte, stale: Stale): (l': Loop)
    requires Ok(l)
    ensures Ok(l')
  {
    var l1 := l.(served := l.served + [p]);
    if Overruns(p.h) then l1.(overrun := true)
    else
      var ack := Acknowledgement(p.h, ReadData(l.dev, p.h, stale), ackPad);
      l1.(out := l.out[i := l.out[i] + Encode(ack)])
  }

  /** The acknowledgement of a read is a packet the bridge can take whole exactly when the end point filled
      the buffer or nothing was asked for: a configuration read, or a read of a BAR that does not exist, is
      acknowledged with a count and no data behind it. */
  lemma AcknowledgedWholeIff(d: Regs, h: Header, ackPad: Byte, stale: Stale)
    requires RegsOk(d) && IsRead(h.kind) && !Overruns(h)
    ensures WellFormed(ToBridge, Acknowledgement(h, ReadData(d, h, stale), ackPad))
            <==> h.count == 0 || (h.kind == 4 && h.addr < 2 * 0x100_0000_0000_0000)
  {
  }

  function Dispatched(l: Loop, i: Index, p: Packet, turn: Turn): (l': Loop)
    requires Ok(l) && (IsWrite(p.h.kind) ==> p.h.count <= |p.payload| <= RX_SIZE)
    ensures Ok(l')
  {
    if IsWrite(p.h.kind) then WriteServed(l, p, turn.msgPad)
    else if IsRead(p.h.kind) then ReadServed(l, i, p, turn.ackPad, turn.stale)
    else if p.h.kind == NACK then l.(fd := [-1, -1], active := -1)
    else l
  }

  lemma ClosedOk(l: Loop, i: Index)
    requires Ok(l) && l.fd[i] > 0
    ensures Ok(Closed(l, i))
  {
  }

  lemma TakenOk(l: Loop, i: Index, rest: seq<Event>)
    requires Ok(l) && l.fd[i] > 0 && Blocking(rest)
    ensures Ok(l.(queue := l.queue[i := rest])) && Ok(l.(queue := l.queue[i := rest], active := l.fd[i]))
  {
  }

  function Exchanged(l: Loop, i: Index, turn: Turn): (l': Loop)
    requires Ok(l) && l.fd[i] > 0
    ensures Ok(l')
  {
    var t := Take(l.queue[i]);
    TakenOk(l, i, t.rest);
    var kept := l.(queue := l.queue[i := t.rest]);
    match t
    case Failed(_) => ClosedOk(kept, i); Closed(kept, i)
    case TooBig(_) => kept
    case Took(p, _) =>
      TookFits(l.queue[i]);
      Dispatched(kept.(active := l.fd[i]), i, p, turn)
  }

  /** What an exchange does to the sockets and the list of requests. */
  lemma ExchangedControl(l: Loop, i: Index, turn: Turn)
    requires Ok(l) && l.fd[i] > 0
    ensures var l', t := Exchanged(l, i, turn), Take(l.queue[i]);
            && l'.queue == l.queue[i := t.rest]
            && (t.Failed? ==> l'.fd == l.fd[i := -1] && l'.active == Closed(l, i).active && l'.served == l.served)
            && (t.TooBig? ==> l'.fd == l.fd && l'.active == l.active && l'.served == l.served)
            && (t.Took? ==>
                  && l'.fd == (if t.p.h.kind == NACK then [-1, -1] else l.fd)
                  && l'.active == (if t.p.h.kind == NACK then -1 else l.fd[i])
                  && l'.served == l.served + if IsRequest(t.p) then [t.p] else [])
  {
    hide Take, Written, ReadData, Encode;
  }

  /** poll reports a socket, and the first one it reports is read. */
  predicate Reports(l: Loop, turn: Turn)
    requires Ok(l)
  {
    (turn.in0 && l.fd[0] > 0) || (turn.in1 && l.fd[1] > 0)
  }

  function Picked(l: Loop, turn: Turn): Index
    requires Ok(l)
  {
    if turn.in0 && l.fd[0] > 0 then 0 else 1
  }

  ghost function Padded(tail: seq<Byte>): (s: Stale)
    requires |tail| <= 3
    ensures s[..|tail|] == tail
  {
    tail + [0, 0, 0][|tail|..]
  }

  /** Packets that can still be taken, and sockets that can still fail. */
  function Work(l: Loop): nat
    requires |l.fd| == |l.queue| == 2
  {
    (if l.fd[0] > 0 then |Clear(l.queue[0])| + 1 else 0) + (if l.fd[1] > 0 then |Clear(l.queue[1])| + 1 else 0)
  }

  lemma ExchangeDoesWork(l: Loop, i: Index, turn: Turn)
    requires Ok(l) && l.fd[i] > 0
    ensures Work(Exchanged(l, i, turn)) < Work(l)
  {
    TakeIsParse(l.queue[i]);
    ExchangedControl(l, i, turn);
    hide Exchanged, Take, Clear, Parse, DecodeHeader;
  }

  predicate HoldsOversized(q: seq<Event>) {
    var clear := Clear(q);
    |clear| >= HEADER_SIZE && Oversized(DecodeHeader(clear[..HEADER_SIZE]))
  }

  predicate Fails(q: seq<Event>) {
    !HoldsOversized(q) && Parse(ToSim, Clear(q)).None?
  }

  predicate Delivers(q: seq<Event>, p: Packet) {
    Parse(ToSim, Clear(q)).Some? && Parse(ToSim, Clear(q)).value.0 == p && !Oversized(p.h)
  }

  /** Exactly when the loop goes on after an exchange, and with which active socket; exactly when it stops
      with a socket still open; and what it has served by then. */
  lemma WhenTheLoopEnds(l: Loop, i: Index, turn: Turn)
    requires Ok(l) && l.active > 0 && l.fd[i] > 0
    ensures var l' := Exchanged(l, i, turn); var idle := l.active != l.fd[i];
            && (l'.active > 0 <==>
                  && (Fails(l.queue[i]) ==> !idle && l.fd[1 - i] > 0)
                  && (forall p :: Delivers(l.queue[i], p) ==> p.h.kind != NACK))
            && (l'.active == -1 && (l'.fd[0] > 0 || l'.fd[1] > 0) <==> Fails(l.queue[i]) && idle)
            && (forall p :: Delivers(l.queue[i], p) && IsRequest(p) ==> l'.served == l.served + [p])
            && ((forall p :: Delivers(l.queue[i], p) ==> !IsRequest(p)) ==> l'.served == l.served)
    ensures var l' := Exchanged(l, i, turn); var q := l.queue[i];
            && l'.queue[1 - i] == l.queue[1 - i]
            && (l'.active > 0 ==>
                  && l'.active == (if Fails(q) then l.fd[1 - i] else if HoldsOversized(q) then l.active else l.fd[i])
                  && l'.fd[1 - i] == l.fd[1 - i]
                  && l'.fd[i] == (if Fails(q) then -1 else l.fd[i]))
  {
    TakeIsParse(l.queue[i]);
    var q := l.queue[i];
    ExchangedControl(l, i, turn);
    hide Exchanged, Take, Clear, Parse, DecodeHeader;
    if Take(q).Took? {
      assert Delivers(q, Take(q).p);
    }
  }

  /** A shutdown of the socket that is not active ends the loop at once: the active one stays open, and
      nothing more of what it holds is served. */
  lemma IdleShutdownEndsTheLoop(l: Loop, i: Index, turn: Turn)
    requires Ok(l) && l.active == l.fd[1 - i] > 0 && l.fd[i] > 0 && Clear(l.queue[i]) == []
    ensures var l' := Exchanged(l, i, turn);
            && l'.active == -1 && l'.fd[1 - i] == l.fd[1 - i] > 0
            && l'.queue[1 - i] == l.queue[1 - i]
            && l'.served == l.served && l'.dev == l.dev && l'.out == l.out
  {
    TakeIsParse(l.queue[i]);
  }

  /** What an exchange sends, and where: a read is acknowledged on the socket it came from, with its data;
      a write sends nothing but, if it asks for an interrupt and the async socket is open, the interrupt
      message there; anything else nothing. */
  lemma SentByExchange(l: Loop, i: Index, turn: Turn)
    requires Ok(l) && l.fd[i] > 0
    ensures var l', t := Exchanged(l, i, turn), Take(l.queue[i]);
            && |l'.out| == 2
            && (t.Took? && IsRead(t.p.h.kind) && !Overruns(t.p.h) ==>
                  && l'.out[1 - i] == l.out[1 - i] && l'.dev == l.dev
                  && l'.out[i] == l.out[i]
                                  + Encode(Acknowledgement(t.p.h, ReadData(l.dev, t.p.h, turn.stale), turn.ackPad)))
            && (t.Took? && IsWrite(t.p.h.kind) ==>
                  && |t.p.payload| == t.p.h.count <= RX_SIZE
                  && var e := Written(l.dev, t.p.h, t.p.payload);
                  && l'.dev == e.regs && l'.out[0] == l.out[0]
                  && l'.out[1] == l.out[1] + if e.interrupt && l.fd[1] > 0 then Encode(InterruptMessage(turn.msgPad))
                                             else [])
            && (!t.Took? || !IsRequest(t.p) ==> l'.out == l.out && l'.dev == l.dev)
  {
    if Take(l.queue[i]).Took? {
      TookFits(l.queue[i]);
    }
    hide Take, Written, ReadData, Encode;
    assert l.out[1] + [] == l.out[1];
  }

  // ---- Framing ----

  /** Every packet the loop takes off one socket, until the socket fails. */
  function TakeAll(q: seq<Event>): seq<Packet>
    requires Blocking(q)
    decreases |Clear(q)|
  {
    TakeIsParse(q);
    match Take(q)
    case Failed(_) => []
    case TooBig(rest) => TakeAll(rest)
    case Took(p, rest) => [p] + TakeAll(rest)
  }

  lemma {:induction false} NothingOversizedTaken(q: seq<Event>)
    requires Blocking(q)
    ensures forall k :: 0 <= k < |TakeAll(q)| ==> !Oversized(TakeAll(q)[k].h)
    decreases |Clear(q)|
  {
    TakeIsParse(q);
    hide Clear, Take;
    match Take(q) {
      case Failed(_) =>
      case TooBig(rest) => NothingOversizedTaken(rest);
      case Took(p, rest) =>
        DecodeParsed(q);
        NothingOversizedTaken(rest);
    }
  }

  lemma DecodeParsed(q: seq<Event>)
    requires Blocking(q) && Take(q).Took?
    ensures !Oversized(Take(q).p.h)
  {
    TakeIsParse(q);
    hide Take;
  }

  lemma {:induction false} TakesWhatFits(ps: seq<Packet>, q: seq<Event>)
    requires Blocking(q) && Clear(q) == EncodeAll(ps)
    requires forall k :: 0 <= k < |ps| ==> WellFormed(ToSim, ps[k]) && !Oversized(ps[k].h)
    ensures TakeAll(q) == ps
    decreases |ps|
  {
    if ps == [] {
      TakeIsParse(q);
    } else {
      FirstTaken(q, ps);
      hide Clear, Take;
      TakesWhatFits(ps[1..], Take(q).rest);
    }
  }

  /** Framing round trip towards the simulator: whatever packets are sent to it and however their bytes are
      cut and interrupted, the loop takes exactly them, if and only if none is a write of more than 1024
      bytes. */
  lemma {:induction false} FramingToSim(ps: seq<Packet>, q: seq<Event>)
    requires Blocking(q) && Clear(q) == EncodeAll(ps)
    requires forall k :: 0 <= k < |ps| ==> WellFormed(ToSim, ps[k])
    ensures TakeAll(q) == ps <==> forall k :: 0 <= k < |ps| ==> !Oversized(ps[k].h)
    ensures TakeAll(q) == ps <==>
              forall k :: 0 <= k < |ps| ==> (ps[k].h.kind == 5 || ps[k].h.kind == 7) ==> ps[k].h.count <= 1024
  {
    assert forall h: Header :: Oversized(h) <==> (h.kind == 5 || h.kind == 7) && h.count > 1024;
    hide TakeAll, Clear, EncodeAll;
    NothingOversizedTaken(q);
    if forall k :: 0 <= k < |ps| ==> !Oversized(ps[k].h) {
      TakesWhatFits(ps, q);
    }
  }

  // ---- Runs ----

  predicate Moves(l: Loop, turn: Turn, l': Loop) {
    Ok(l) && l.active > 0 && !l.overrun && Reports(l, turn) && l' == Exchanged(l, Picked(l, turn), turn)
  }

  /** A run of the main loop: what each exchange found. */
  predicate Path(run: seq<Loop>, turns: seq<Turn>) {
    && |run| == |turns| + 1 && Ok(run[0])
    && forall k :: 0 <= k < |turns| ==> Moves(run[k], turns[k], run[k + 1])
  }

  lemma PathSnoc(run: seq<Loop>, turns: seq<Turn>, turn: Turn, l: Loop)
    requires Path(run, turns) && Moves(run[|turns|], turn, l)
    ensures Path(run + [l], turns + [turn])
  {
    hide Moves, Ok;
  }

  /** However poll chooses, the active socket is always -1 or open, so poll never waits on two closed
      sockets, and there are no more exchanges than bytes left and sockets open. */
  lemma {:induction false} EveryRunEnds(run: seq<Loop>, turns: seq<Turn>)
    requires Path(run, turns)
    ensures var l := run[|turns|];
            && Ok(l) && (l.active == -1 || l.active == l.fd[0] > 0 || l.active == l.fd[1] > 0)
            && |turns| + Work(l) <= Work(run[0])
    decreases |turns|
  {
    var n := |turns|;
    if n > 0 {
      EveryRunEnds(run[..n], turns[..n - 1]);
      assert Moves(run[n - 1], turns[n - 1], run[n]);
      hide Work, Exchanged;
      ExchangeDoesWork(run[n - 1], Picked(run[n - 1], turns[n - 1]), turns[n - 1]);
    }
  }

  lemma MoveAt(run: seq<Loop>, turns: seq<Turn>, k: nat)
    requires Path(run, turns) && k < |turns|
    ensures Moves(run[k], turns[k], run[k + 1])
  {
  }

  /** Nothing is read from or sent on a socket once it is closed, and it stays closed. */
  lemma ClosedStaysSilent(l: Loop, turn: Turn, l': Loop, i: Index)
    requires Moves(l, turn, l') && l.fd[i] == -1
    ensures l'.fd[i] == -1 && l'.queue[i] == l.queue[i] && l'.out[i] == l.out[i]
  {
    ExchangedControl(l, 1 - i, turn);
    SentByExchange(l, 1 - i, turn);
    hide Take, Written, ReadData, Encode, Exchanged;
  }

  function Requests(ps: seq<Packet>): seq<Packet> {
    if ps == [] then []
    else (if IsRequest(ps[0]) then [ps[0]] else []) + Requests(ps[1..])
  }

  lemma {:induction false} RequestsSplit(served: seq<Packet>, ps: seq<Packet>)
    requires ps != []
    ensures served + Requests(ps) == (served + if IsRequest(ps[0]) then [ps[0]] else []) + Requests(ps[1..])
  {
    var first := if IsRequest(ps[0]) then [ps[0]] else [];
    assert served + (first + Requests(ps[1..])) == (served + first) + Requests(ps[1..]);
  }

  /** The clear bytes of the open main channel are these packets, then NACK. */
  predicate MainHolds(l: Loop, ps: seq<Packet>, nack: Packet) {
    && Ok(l) && l.fd[0] > 0 && Clear(l.queue[0]) == EncodeAll(ps + [nack])
    && nack.h.kind == NACK && WellFormed(ToSim, nack)
    && forall k :: 0 <= k < |ps| ==>
         WellFormed(ToSim, ps[k]) && ps[k].h.kind != NACK && !Oversized(ps[k].h) && !Overruns(ps[k].h)
  }

  /** Socket 1 is not reported while there are bytes on the main socket that poll does not report. */
  predicate MainHeardFirst(l: Loop, turn: Turn)
    requires Ok(l)
  {
    turn.in1 && Clear(l.queue[0]) != [] ==> turn.in0
  }

  predicate AllHeardFirst(run: seq<Loop>, turns: seq<Turn>) {
    && |run| == |turns| + 1
    && forall k :: 0 <= k < |turns| ==> Ok(run[k]) && MainHeardFirst(run[k], turns[k])
  }

  lemma MainPicked(l: Loop, ps: seq<Packet>, nack: Packet, turn: Turn)
    requires MainHolds(l, ps, nack) && Reports(l, turn) && MainHeardFirst(l, turn)
    ensures Picked(l, turn) == 0
  {
    assert (ps + [nack]) != [];
  }

  /** What is left of the packets after the first one. */
  lemma FirstOfAll(ps: seq<Packet>, nack: Packet)
    ensures (ps + [nack])[0] == (if ps == [] then nack else ps[0])
    ensures ps != [] ==> (ps + [nack])[1..] == ps[1..] + [nack]
  {
  }

  lemma NextOnMain(l: Loop, ps: seq<Packet>, nack: Packet, turn: Turn, l': Loop)
    requires MainHolds(l, ps, nack) && Moves(l, turn, l') && Picked(l, turn) == 0
    ensures ps == [] ==> l'.active == -1 && l'.fd == [-1, -1] && l'.served == l.served && l'.overrun == l.overrun
    ensures ps != [] ==>
              && l'.active > 0 && MainHolds(l', ps[1..], nack) && !l'.overrun
              && l'.fd[1] == l.fd[1] && l'.queue[1] == l.queue[1]
              && l'.served == l.served + if IsRequest(ps[0]) then [ps[0]] else []
  {
    FirstOfAll(ps, nack);
    FirstTaken(l.queue[0], ps + [nack]);
    ExchangedControl(l, 0, turn);
    hide Clear, Take, EncodeAll, Reports, Picked;
  }

  /** One exchange of such a run. */
  lemma MainStep(run: seq<Loop>, turns: seq<Turn>, k: nat, ps: seq<Packet>, nack: Packet)
    requires Path(run, turns) && AllHeardFirst(run, turns) && k < |turns|
    requires MainHolds(run[k], ps, nack) && !run[k].overrun
    ensures var l, l' := run[k], run[k + 1];
            if ps == [] then
              l'.fd == [-1, -1] && l'.served == l.served && !l'.overrun && |turns| == k + 1
            else
              && l'.active > 0 && MainHolds(l', ps[1..], nack) && !l'.overrun
              && l'.served == l.served + if IsRequest(ps[0]) then [ps[0]] else []
  {
    MoveAt(run, turns, k);
    assert Ok(run[k]) && MainHeardFirst(run[k], turns[k]);
    MainPicked(run[k], ps, nack, turns[k]);
    NextOnMain(run[k], ps, nack, turns[k], run[k + 1]);
    if k + 1 < |turns| {
      MoveAt(run, turns, k + 1);
    }
  }

  lemma {:induction false} GracefulFrom(run: seq<Loop>, turns: seq<Turn>, k: nat, ps: seq<Packet>, nack: Packet)
    requires Path(run, turns) && AllHeardFirst(run, turns) && k <= |turns|
    requires MainHolds(run[k], ps, nack) && run[k].active > 0 && !run[k].overrun
    requires run[|turns|].active == -1
    ensures var l := run[|turns|];
            && |turns| == k + |ps| + 1 && l.served == run[k].served + Requests(ps)
            && l.fd == [-1, -1] && !l.overrun
    decreases |ps|
  {
    assert |run| == |turns| + 1;
    hide Path, AllHeardFirst, MainHolds, IsRequest;
    MainStep(run, turns, k, ps, nack);
    if ps != [] {
      GracefulFrom(run, turns, k + 1, ps[1..], nack);
      RequestsSplit(run[k].served, ps);
    }
  }

  /** A bridge sends its packets and then NACK on the main channel, and poll reports the other channel, and
      whatever is on it, only once it also reports what is left on this one. Then every request is served,
      in order, and the loop is over, with both sockets closed, at the NACK. */
  lemma {:induction false} DisconnectHeardFirst(run: seq<Loop>, turns: seq<Turn>, ps: seq<Packet>, nack: Packet)
    requires Path(run, turns) && AllHeardFirst(run, turns)
    requires MainHolds(run[0], ps, nack) && run[0].active > 0 && !run[0].overrun
    requires run[|turns|].active == -1
    ensures var l := run[|turns|];
            && |turns| == |ps| + 1 && l.served == run[0].served + Requests(ps)
            && l.fd == [-1, -1] && !l.overrun
  {
    hide *;
    GracefulFrom(run, turns, 0, ps, nack);
  }

  /** Nothing comes on the async socket but its end. */
  predicate Silent(l: Loop) {
    Ok(l) && (l.fd[1] > 0 ==> Clear(l.queue[1]) == [])
  }

  /** The exchange finds the end of the async socket, and the main one is active. */
  predicate CutOff(l: Loop, turn: Turn) {
    Ok(l) && Picked(l, turn) == 1 && l.active == l.fd[0]
  }

  predicate SomeCutOff(run: seq<Loop>, turns: seq<Turn>, k: nat) {
    |run| == |turns| + 1 && exists j :: k <= j < |turns| && CutOff(run[j], turns[j])
  }

  lemma SomeCutOffFrom(run: seq<Loop>, turns: seq<Turn>, k: nat)
    requires |run| == |turns| + 1 && k < |turns|
    ensures SomeCutOff(run, turns, k) <==> CutOff(run[k], turns[k]) || SomeCutOff(run, turns, k + 1)
  {
    hide CutOff;
  }

  /** The end of the async socket is met: the loop is over if main was active, and goes on with main
      otherwise. */
  lemma AsyncEnds(l: Loop, ps: seq<Packet>, nack: Packet, turn: Turn, l': Loop)
    requires MainHolds(l, ps, nack) && Silent(l) && Moves(l, turn, l') && Picked(l, turn) == 1 && !l.overrun
    ensures l'.fd[0] == l.fd[0] && l'.queue[0] == l.queue[0] && l'.served == l.served && MainHolds(l', ps, nack)
    ensures l'.active == (if CutOff(l, turn) then -1 else l.fd[0]) && Silent(l') && !l'.overrun
  {
    TakeIsParse(l.queue[1]);
    hide Clear, Take, EncodeAll;
  }

  lemma {:induction false} DisconnectFrom(run: seq<Loop>, turns: seq<Turn>, k: nat, ps: seq<Packet>, nack: Packet)
    returns (n: nat)
    requires Path(run, turns) && k <= |turns| && run[|turns|].active == -1
    requires MainHolds(run[k], ps, nack) && Silent(run[k]) && run[k].active > 0 && !run[k].overrun
    ensures Ok(run[|turns|]) && n <= |ps| && run[|turns|].served == run[k].served + Requests(ps[..n])
    ensures if SomeCutOff(run, turns, k)
            then run[|turns|].fd[0] > 0 && Clear(run[|turns|].queue[0]) == EncodeAll(ps[n..] + [nack])
            else n == |ps| && run[|turns|].fd == [-1, -1]
    decreases |turns| - k
  {
    var l, turn, l' := run[k], turns[k], run[k + 1];
    EveryRunEnds(run, turns);
    MoveAt(run, turns, k);
    SomeCutOffFrom(run, turns, k);
    if k + 1 < |turns| {
      MoveAt(run, turns, k + 1);
    }
    assert k + 1 == |turns| ==> !SomeCutOff(run, turns, k + 1);
    assert l'.active == -1 ==> k + 1 == |turns|;
    hide Path, MainHolds, Moves, SomeCutOff, Clear, EncodeAll;
    if Picked(l, turn) == 1 {
      AsyncEnds(l, ps, nack, turn, l');
      if CutOff(l, turn) {
        n := 0;
        UnreadFrom(l', ps, nack);
      } else {
        n := DisconnectFrom(run, turns, k + 1, ps, nack);
      }
    } else {
      NextOnMain(l, ps, nack, turn, l');
      if ps == [] {
        n := 0;
      } else {
        var m := DisconnectFrom(run, turns, k + 1, ps[1..], nack);
        n := m + 1;
        PrefixRequests(l.served, ps, n);
      }
    }
  }

  lemma UnreadFrom(l: Loop, ps: seq<Packet>, nack: Packet)
    requires MainHolds(l, ps, nack)
    ensures l.fd[0] > 0 && Clear(l.queue[0]) == EncodeAll(ps[0..] + [nack])
    ensures l.served + Requests(ps[..0]) == l.served
  {
    assert ps[0..] == ps;
  }

  lemma {:induction false} PrefixRequests(served: seq<Packet>, ps: seq<Packet>, n: nat)
    requires 0 < n <= |ps|
    ensures served + Requests(ps[..n]) ==
            (served + if IsRequest(ps[0]) then [ps[0]] else []) + Requests(ps[1..][..n - 1])
    ensures ps[1..][n - 1..] == ps[n..]
  {
    RequestsSplit(served, ps[..n]);
    assert ps[..n][1..] == ps[1..][..n - 1];
  }

  /** A bridge sends its packets and then NACK on the main channel and nothing on the other. Whichever
      socket is active at first and whatever poll reports: the loop ends at the NACK, with both sockets
      closed and every request served in order, if and only if it never meets the end of the async socket
      while the main one is active. If it does, it is over there and then: some prefix of the packets has
      been served, and main is left open with the others, NACK included, unread. */
  lemma {:induction false} GracefulDisconnect(run: seq<Loop>, turns: seq<Turn>, ps: seq<Packet>, nack: Packet)
    returns (n: nat)
    requires Path(run, turns) && MainHolds(run[0], ps, nack) && Silent(run[0])
    requires run[0].active > 0 && !run[0].overrun && run[|turns|].active == -1
    ensures var l := run[|turns|];
            && Ok(l) && n <= |ps| && l.served == run[0].served + Requests(ps[..n])
            && (l.fd[0] == -1 <==> !SomeCutOff(run, turns, 0))
            && (l.fd[0] == -1 ==> l.fd[1] == -1 && n == |ps|)
            && (l.fd[0] != -1 ==> l.fd[0] > 0 && Clear(l.queue[0]) == EncodeAll(ps[n..] + [nack]))
  {
    hide Path, MainHolds, Silent, SomeCutOff, Clear, EncodeAll;
    n := DisconnectFrom(run, turns, 0, ps, nack);
  }

  lemma {:induction false} FirstTaken(q: seq<Event>, ps: seq<Packet>)
    requires Blocking(q) && ps != [] && WellFormed(ToSim, ps[0]) && !Oversized(ps[0].h)
    requires Clear(q) == EncodeAll(ps)
    ensures Take(q).Took? && Take(q).p == ps[0] && Clear(Take(q).rest) == EncodeAll(ps[1..])
  {
    ParseEncode(ToSim, ps[0], EncodeAll(ps[1..]));
    DecodeFirst(ps[0], EncodeAll(ps[1..]));
    TakeIsParse(q);
    hide Clear, Take, Parse;
  }

  lemma DecodeFirst(p: Packet, rest: seq<Byte>)
    ensures DecodeHeader((Encode(p) + rest)[..HEADER_SIZE]) == p.h
  {
    assert (Encode(p) + rest)[..HEADER_SIZE] == EncodeHeader(p.h);
    DecodeEncodeHeader(p.h);
  }

  // ---- The code ----

  class Simulator {
    var fd: seq<int>
    var activeSocket: int
    var out: seq<seq<Byte>>
    var served: seq<Packet>
    var overrun: bool
    const main: Socket
    const async: Socket
    const endPoint: EndPoint
    const dbuf: array<Byte>

    ghost function State(): Loop
      reads this, main, async, endPoint, endPoint.bar0, endPoint.mockReg
    {
      Loop(fd, activeSocket, [main.queue, async.queue], out, served, endPoint.Contents(), overrun)
    }

    ghost predicate Valid()
      reads this, main, async, endPoint, endPoint.bar0, endPoint.mockReg
    {
      && Ok(State()) && main != async && dbuf.Length == RX_SIZE && endPoint.Valid()
      && dbuf as object != endPoint.bar0 && dbuf as object != endPoint.mockReg
    }

    constructor (fd: seq<int>, active: int, main: Socket, async: Socket, endPoint: EndPoint)
      requires main != async && endPoint.Valid()
      requires Ok(Loop(fd, active, [main.queue, async.queue], [[], []], [], endPoint.Contents(), false))
      ensures Valid() && fresh(dbuf)
      ensures State() == Loop(fd, active, [main.queue, async.queue], [[], []], [], endPoint.Contents(), false)
      ensures this.main == main && this.async == async && this.endPoint == endPoint
    {
      this.fd, activeSocket, out, served, overrun := fd, active, [[], []], [], false;
      this.main, this.async, this.endPoint := main, async, endPoint;
      dbuf := new Byte[RX_SIZE];
    }

    /** The failure branch of receive. */
    method Close(i: Index)
      requires Valid() && fd[i] > 0
      modifies this
      ensures Valid() && State() == Closed(old(State()), i)
    {
      var closing := fd[i];
      fd := fd[i := -1];
      if activeSocket == closing && fd[1 - i] > 0 {
        activeSocket := fd[1 - i];
      } else {
        activeSocket := -1;
      }
    }

    /** The reads of receive: the header, then the payload of a write that fits. */
    method ReadPacket(line: Socket) returns (failed: bool, tooBig: bool, h: Header, len: nat)
      requires Blocking(line.queue) && dbuf.Length == RX_SIZE
      modifies line, dbuf
      ensures var t := Take(old(line.queue));
              && failed == t.Failed? && tooBig == t.TooBig? && line.queue == t.rest
              && (t.Took? ==> h == t.p.h && len <= RX_SIZE && dbuf[..len] == t.p.payload)
    {
      ghost var q := line.queue;
      BlockingReceived(q, HEADER_SIZE, []);
      var head := new Byte[HEADER_SIZE];
      var n := line.DoReceive(head, HEADER_SIZE);
      h, len, tooBig := DecodeHeader(head[..]), 0, false;
      failed := n < 0;
      if failed {
        return;
      }
      assert head[..] == Received(q, HEADER_SIZE, []).got;
      if IsWrite(h.kind) && h.count > 0 {
        tooBig := h.count > dbuf.Length;
        if tooBig {
          return;
        }
        BlockingReceived(line.queue, h.count, []);
        n := line.DoReceive(dbuf, h.count);
        failed := n < 0;
        if !failed {
          len := n;
        }
      }
    }

    method ReadFrom(i: Index) returns (failed: bool, tooBig: bool, h: Header, len: nat)
      requires Valid() && fd[i] > 0
      modifies main, async, dbuf
      ensures Valid()
      ensures var l := old(State()); var t := Take(l.queue[i]);
              && State() == l.(queue := l.queue[i := t.rest])
              && failed == t.Failed? && tooBig == t.TooBig?
              && (t.Took? ==> h == t.p.h && len <= RX_SIZE && dbuf[..len] == t.p.payload)
    {
      hide Take;
      if i == 0 {
        failed, tooBig, h, len := ReadPacket(main);
      } else {
        failed, tooBig, h, len := ReadPacket(async);
      }
    }

    /** receive, once poll has reported socket i: 0, or -1 for a packet larger than the buffer. */
    method ReceiveFrom(i: Index) returns (ret: int, h: Header, len: nat)
      requires Valid() && fd[i] > 0
      modifies this, main, async, dbuf
      ensures Valid()
      ensures var l := old(State()); var t := Take(l.queue[i]);
              var l' := l.(queue := l.queue[i := t.rest]);
              match t
              case Failed(_) => ret == 0 && h.kind == INVALID && State() == Closed(l', i)
              case TooBig(_) => ret == -1 && State() == l'
              case Took(p, _) =>
                && ret == 0 && h == p.h && len <= RX_SIZE && dbuf[..len] == p.payload
                && State() == l'.(active := l.fd[i])
    {
      hide Take, Closed;
      var failed, tooBig;
      failed, tooBig, h, len := ReadFrom(i);
      ret := if !failed && tooBig then -1 else 0;
      if failed {
        Close(i);
        h := h.(kind := INVALID);
      } else if !tooBig {
        activeSocket := fd[i];
      }
    }

    /** doWrite, and sendAsync if it raises an interrupt. */
    method HandleWrite(h: Header, len: nat, msgPad: Byte)
      requires Valid() && h.count == len <= RX_SIZE
      modifies this`out, this`served, endPoint.bar0, endPoint.mockReg
      ensures Valid() && State() == WriteServed(old(State()), Packet(h, old(dbuf[..len])), msgPad)
    {
      served := served + [Packet(h, dbuf[..len])];
      var interrupt := endPoint.DoWrite(h, dbuf, len);
      if interrupt && fd[1] > 0 {
        out := out[1 := out[1] + Encode(InterruptMessage(msgPad))];
      }
    }

    /** The acknowledgement goes out on the active socket, with the buffer if doRead filled it. */
    method Acknowledge(h: Header, i: Index, len: nat, ackPad: Byte, ghost data: seq<Byte>)
      requires Valid() && fd[i] > 0 && activeSocket == fd[i] && (len == h.count ==> len <= RX_SIZE)
      requires data == if len == h.count then dbuf[..len] else []
      modifies this`out
      ensures Valid()
      ensures out == old(out)[i := old(out)[i] + Encode(Acknowledgement(h, data, ackPad))]
    {
      var at := if activeSocket == fd[0] then 0 else 1;
      var bytes := EncodeHeader(Header(h.addr, 0, h.count, ACK, h.tag, 0, ackPad));
      if len == h.count && h.count > 0 {
        out := out[at := out[at] + (bytes + dbuf[..h.count])];
      } else {
        assert bytes + [] == bytes;
        out := out[at := out[at] + bytes];
      }
    }

    method FillBuffer(h: Header) returns (len: nat, ghost stale: Stale)
      requires Valid() && !Overruns(h)
      modifies dbuf
      ensures Valid() && State() == old(State()) && (len == h.count ==> len <= RX_SIZE)
      ensures ReadData(endPoint.Contents(), h, stale) == if len == h.count then dbuf[..len] else []
    {
      hide WordsRead, BytesOf;
      ghost var whole := 4 * (h.count / 4);
      stale := [0, 0, 0];
      len := endPoint.DoRead(h, dbuf);
      if Fills(h) {
        stale := Padded(dbuf[whole..h.count]);
        assert dbuf[..h.count] == dbuf[..whole] + dbuf[whole..h.count];
      }
    }

    /** doRead and the acknowledgement. */
    method HandleRead(h: Header, i: Index, ackPad: Byte) returns (ghost stale: Stale)
      requires Valid() && fd[i] > 0 && activeSocket == fd[i]
      modifies this`out, this`served, this`overrun, dbuf
      ensures Valid() && State() == ReadServed(old(State()), i, Packet(h, []), ackPad, stale)
    {
      stale := [0, 0, 0];
      served := served + [Packet(h, [])];
      if Fills(h) && h.count > dbuf.Length {
        overrun := true;
        return;
      }
      var len;
      len, stale := FillBuffer(h);
      hide ReadData, Encode, Fills;
      Acknowledge(h, i, len, ackPad, ReadData(endPoint.Contents(), h, stale));
    }

    /** What exchange does with a packet it got on socket i. */
    method Dispatch(i: Index, h: Header, len: nat, ackPad: Byte, msgPad: Byte) returns (ghost stale: Stale)
      requires Valid() && fd[i] > 0 && activeSocket == fd[i] && len <= RX_SIZE
      requires if IsWrite(h.kind) then len == h.count else len == 0
      modifies this, dbuf, endPoint.bar0, endPoint.mockReg
      ensures Valid()
      ensures State() == Dispatched(old(State()), i, Packet(h, old(dbuf[..len])),
                                    Turn(true, true, ackPad, msgPad, stale))
    {
      hide WriteServed, ReadServed;
      stale := [0, 0, 0];
      if IsWrite(h.kind) {
        HandleWrite(h, len, msgPad);
      } else if IsRead(h.kind) {
        stale := HandleRead(h, i, ackPad);
      } else if h.kind == NACK {
        fd := [-1, -1];
        activeSocket := -1;
      }
    }

    /** exchange(ANY, ANY), as the main loop calls it, once poll has returned. */
    method Exchange(in0: bool, in1: bool, ackPad: Byte, msgPad: Byte) returns (ghost turn: Turn)
      requires Valid() && activeSocket > 0 && ((in0 && fd[0] > 0) || (in1 && fd[1] > 0))
      modifies this, main, async, dbuf, endPoint.bar0, endPoint.mockReg
      ensures Valid() && turn.in0 == in0 && turn.in1 == in1
      ensures Reports(old(State()), turn)
      ensures State() == Exchanged(old(State()), Picked(old(State()), turn), turn)
    {
      turn := Turn(in0, in1, ackPad, msgPad, [0, 0, 0]);
      hide Take, WriteServed, ReadServed, Closed;
      var i: Index := if in0 && fd[0] > 0 then 0 else 1;
      ghost var queue := State().queue[i];
      var ret, h, len := ReceiveFrom(i);
      if ret == 0 && h.kind != INVALID {
        TookFits(queue);
        ghost var stale := Dispatch(i, h, len, ackPad, msgPad);
        turn := turn.(stale := stale);
      }
    }

    /** The main loop: it ends, whatever the peer sends and however it stops, with no active socket; unless
        a read overruns the packet buffer. */
    method Run() returns (ghost run: seq<Loop>, ghost turns: seq<Turn>)
      requires Valid() && !overrun
      modifies this, main, async, dbuf, endPoint.bar0, endPoint.mockReg
      ensures Valid() && (activeSocket == -1 || overrun)
      ensures Path(run, turns) && run[0] == old(State()) && run[|turns|] == State()
    {
      run, turns := [State()], [];
      while activeSocket > 0 && !overrun
        invariant Valid() && Path(run, turns) && run[0] == old(State()) && run[|turns|] == State()
        decreases Work(State())
      {
        ghost var l := State();
        hide Work, Exchanged, Ok;
        var in0, in1 :| (in0 && fd[0] > 0) || (in1 && fd[1] > 0);
        var ackPad: Byte, msgPad: Byte :| true;
        var turn := Exchange(in0, in1, ackPad, msgPad);
        ExchangeDoesWork(l, Picked(l, turn), turn);
        PathSnoc(run, turns, turn, State());
        hide Path;
        run, turns := run + [State()], turns + [turn];
      }
    }
  }
}
