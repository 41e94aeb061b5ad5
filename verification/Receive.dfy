/** Reading packets off a stream socket (common/src/socket_channel.cpp): recv may cut the stream anywhere,
    be interrupted, time out or fail; framing must not depend on it. */
module Receive {
  import opened Protocol

  /** What successive recv calls will meet: bytes, EINTR, a timeout (EAGAIN), or another error. A chunk
      larger than what is asked for stays with its remainder; past the last event the peer has shut
      down. */
  datatype Event = Chunk(bytes: seq<Byte>) | Eintr | Eagain | Fault

  const ERROR := -1
  const SHUT_DOWN := -2
  const TIMEOUT := -3

  predicate QueueOk(q: seq<Event>) {
    forall k :: 0 <= k < |q| ==> q[k].Chunk? ==> q[k].bytes != []
  }

  /** Result code, bytes put into the buffer, and events left. */
  datatype Outcome = Outcome(code: int, got: seq<Byte>, rest: seq<Event>)

  /** doReceive with `got` already in the buffer. */
  function Received(q: seq<Event>, len: nat, got: seq<Byte>): (o: Outcome)
    requires QueueOk(q) && |got| < len
    ensures QueueOk(o.rest) && |got| <= |o.got| <= len && got <= o.got
    decreases |q|
  {
    if q == [] then Outcome(SHUT_DOWN, got, q)
    else match q[0]
      case Eintr => Received(q[1..], len, got)
      case Eagain => Outcome(if got != [] then |got| else TIMEOUT, got, q[1..])
      case Fault => Outcome(ERROR, got, q[1..])
      case Chunk(b) =>
        var room := len - |got|;
        if |b| < room then Received(q[1..], len, got + b)
        else Outcome(len, got + b[..room], Push(b[room..], q[1..]))
  }

  function Push(b: seq<Byte>, q: seq<Event>): (r: seq<Event>)
    requires QueueOk(q)
    ensures QueueOk(r)
  {
    if b == [] then q else [Chunk(b)] + q
  }

  /** The bytes that arrive before the first timeout, error or shutdown. */
  function Clear(q: seq<Event>): seq<Byte> {
    if q == [] then []
    else match q[0]
      case Eintr => Clear(q[1..])
      case Chunk(b) => b + Clear(q[1..])
      case _ => []
  }

  /** What ends the clear bytes. */
  function Blocker(q: seq<Event>): Event {
    if q == [] then Chunk([])
    else if q[0].Eagain? || q[0].Fault? then q[0]
    else Blocker(q[1..])
  }

  lemma {:induction false} ClearPush(b: seq<Byte>, q: seq<Event>)
    requires QueueOk(q)
    ensures Clear(Push(b, q)) == b + Clear(q)
  {
    if b != [] {
      assert ([Chunk(b)] + q)[1..] == q;
    }
  }

  /** Exactly the clear bytes count: `o` is what doReceive must come to. */
  predicate TakesClearBytes(o: Outcome, clear: seq<Byte>, blocker: Event, len: nat, got: seq<Byte>)
    requires |got| < len
  {
    var room := len - |got|;
    if |clear| >= room then
      o.code == len && o.got == got + clear[..room] && Clear(o.rest) == clear[room..]
    else
      o.got == got + clear && o.code ==
        match blocker
        case Eagain => if o.got != [] then |o.got| else TIMEOUT
        case Fault => ERROR
        case _ => SHUT_DOWN
  }

  lemma ChunkTaken(o: Outcome, b: seq<Byte>, clear: seq<Byte>, blocker: Event, len: nat, got: seq<Byte>)
    requires |got| + |b| < len && TakesClearBytes(o, clear, blocker, len, got + b)
    ensures TakesClearBytes(o, b + clear, blocker, len, got)
  {
    var room := len - |got|;
    assert got + (b + clear) == (got + b) + clear;
    if |b + clear| >= room {
      assert (b + clear)[..room] == b + clear[..room - |b|];
      assert (b + clear)[room..] == clear[room - |b|..];
    }
  }

  lemma CutInFirst(b: seq<Byte>, c: seq<Byte>, room: nat)
    requires room <= |b|
    ensures (b + c)[..room] == b[..room] && (b + c)[room..] == b[room..] + c
  {
  }

  lemma {:induction false} ChunkSplit(b: seq<Byte>, q: seq<Event>, room: nat)
    requires QueueOk(q) && room <= |b|
    ensures Clear(Push(b[room..], q)) == (b + Clear(q))[room..] && (b + Clear(q))[..room] == b[..room]
  {
    ClearPush(b[room..], q);
    CutInFirst(b, Clear(q), room);
  }

  /** doReceive returns all that was asked for exactly when that many bytes come before any timeout,
      error or shutdown; then it takes precisely those, however they are cut. */
  lemma {:induction false} ReceivedAll(q: seq<Event>, len: nat, got: seq<Byte>)
    requires QueueOk(q) && |got| < len
    ensures TakesClearBytes(Received(q, len, got), Clear(q), Blocker(q), len, got)
    decreases |q|
  {
    if q != [] {
      match q[0] {
        case Eintr => ReceivedAll(q[1..], len, got);
        case Eagain =>
        case Fault =>
        case Chunk(b) =>
          var room := len - |got|;
          if |b| < room {
            ReceivedAll(q[1..], len, got + b);
            ChunkTaken(Received(q, len, got), b, Clear(q[1..]), Blocker(q), len, got);
          } else {
            ChunkSplit(b, q[1..], room);
          }
      }
    }
  }

  /** All of it, or less and the code says so. */
  lemma {:induction false} AllOrFewer(q: seq<Event>, len: nat)
    requires QueueOk(q) && len > 0
    ensures var o, clear := Received(q, len, []), Clear(q);
            if |clear| >= len then o.code == len && o.got == clear[..len] && Clear(o.rest) == clear[len..]
            else o.code != len
  {
    ReceivedAll(q, len, []);
    hide Received, Clear;
  }

  /** One packet: header, then payload if there is one. */
  datatype Reception = Got(p: Packet, rest: seq<Event>) | Invalid(left: seq<Event>)

  function ReceivePacket(d: Direction, q: seq<Event>): (r: Reception)
    requires QueueOk(q)
    ensures r.Got? ==> QueueOk(r.rest)
  {
    var o := Received(q, HEADER_SIZE, []);
    if o.code != HEADER_SIZE then Invalid(o.rest)
    else
      ReceivedAll(q, HEADER_SIZE, []);
      var h := DecodeHeader(o.got);
      if !CarriesPayload(d, h) then Got(Packet(h, []), o.rest)
      else
        var o2 := Received(o.rest, h.count, []);
        if o2.code != h.count then Invalid(o2.rest) else Got(Packet(h, o2.got), o2.rest)
  }

  /** Chunking is invisible: a packet is received if and only if the clear bytes parse, it is the packet
      they parse to, and the bytes behind it are left. */
  lemma {:induction false} ReceiveIsParse(d: Direction, q: seq<Event>)
    requires QueueOk(q)
    ensures match Parse(d, Clear(q))
            case None => ReceivePacket(d, q).Invalid?
            case Some((p, rest)) =>
              && ReceivePacket(d, q).Got? && ReceivePacket(d, q).p == p
              && Clear(ReceivePacket(d, q).rest) == rest
  {
    var bytes := Clear(q);
    AllOrFewer(q, HEADER_SIZE);
    hide Clear, Received, DecodeHeader;
    if |bytes| >= HEADER_SIZE {
      var o := Received(q, HEADER_SIZE, []);
      var h := DecodeHeader(o.got);
      if CarriesPayload(d, h) {
        AllOrFewer(o.rest, h.count);
        var n := HEADER_SIZE + h.count;
        if |bytes| >= n {
          assert bytes[HEADER_SIZE..][..h.count] == bytes[HEADER_SIZE..n];
          assert bytes[HEADER_SIZE..][h.count..] == bytes[n..];
        }
      }
    }
  }

  /** Everything that can be received, until a reception fails. */
  function Drain(d: Direction, q: seq<Event>): (ps: seq<Packet>)
    requires QueueOk(q)
    decreases |Clear(q)|
  {
    ReceiveIsParse(d, q);
    match ReceivePacket(d, q)
    case Got(p, rest) => [p] + Drain(d, rest)
    case Invalid(_) => []
  }

  /** Framing round trip: for any packets sent to the bridge and any way the kernel cuts and interrupts
      their bytes, what is received is what was sent. */
  lemma {:induction false} FramingRoundTrip(ps: seq<Packet>, q: seq<Event>)
    requires QueueOk(q) && Clear(q) == EncodeAll(ps)
    requires forall k :: 0 <= k < |ps| ==> WellFormed(ToBridge, ps[k])
    ensures Drain(ToBridge, q) == ps
  {
    ReceiveIsParse(ToBridge, q);
    hide Clear, ReceivePacket;
    if ps != [] {
      ParseEncode(ToBridge, ps[0], EncodeAll(ps[1..]));
      FramingRoundTrip(ps[1..], ReceivePacket(ToBridge, q).rest);
    }
  }

  // ---- Failed receptions ----

  /** Every byte that will ever arrive, whatever comes in between; and the events behind the first timeout
      or error. */
  function All(q: seq<Event>): seq<Byte> {
    if q == [] then [] else (if q[0].Chunk? then q[0].bytes else []) + All(q[1..])
  }

  function Behind(q: seq<Event>): (r: seq<Event>)
    requires QueueOk(q)
    ensures QueueOk(r)
  {
    if q == [] then [] else if q[0].Eagain? || q[0].Fault? then q[1..] else Behind(q[1..])
  }

  lemma {:induction false} AllPush(b: seq<Byte>, q: seq<Event>)
    requires QueueOk(q)
    ensures All(Push(b, q)) == b + All(q) && Behind(Push(b, q)) == Behind(q)
  {
    if b != [] {
      assert ([Chunk(b)] + q)[1..] == q;
    }
  }

  lemma {:induction false} ClearThenBehind(q: seq<Event>)
    requires QueueOk(q)
    ensures All(q) == Clear(q) + All(Behind(q))
  {
    if q != [] {
      ClearThenBehind(q[1..]);
      if q[0].Chunk? {
        JoinAssociates(q[0].bytes, Clear(q[1..]), All(Behind(q[1..])));
      }
    }
  }

  /** doReceive as a whole neither invents nor drops a byte. */
  lemma {:induction false} ReceivedConserves(q: seq<Event>, len: nat, got: seq<Byte>)
    requires QueueOk(q) && |got| < len
    ensures var o := Received(q, len, got); o.got + All(o.rest) == got + All(q)
    decreases |q|
  {
    if q != [] {
      if q[0].Chunk? {
        var b, room := q[0].bytes, len - |got|;
        if |b| < room {
          ReceivedConserves(q[1..], len, got + b);
          JoinAssociates(got, b, All(q[1..]));
        } else {
          ChunkConserved(got, b, q[1..], room);
        }
      } else if q[0].Eintr? {
        ReceivedConserves(q[1..], len, got);
        assert [] + All(q[1..]) == All(q[1..]);
      } else {
        assert [] + All(q[1..]) == All(q[1..]);
      }
    }
  }

  lemma {:induction false} ChunkConserved(got: seq<Byte>, b: seq<Byte>, q: seq<Event>, room: nat)
    requires QueueOk(q) && room <= |b|
    ensures got + b[..room] + All(Push(b[room..], q)) == got + (b + All(q))
  {
    AllPush(b[room..], q);
    hide All, Push;
    assert b == b[..room] + b[room..];
  }

  /** What stops it short is used up. */
  lemma {:induction false} ReceivedStops(q: seq<Event>, len: nat, got: seq<Byte>)
    requires QueueOk(q) && |got| < len
    ensures var o := Received(q, len, got);
            if |o.got| < len then o.rest == Behind(q) else Behind(o.rest) == Behind(q)
    decreases |q|
  {
    if q != [] {
      if q[0].Chunk? {
        var b, room := q[0].bytes, len - |got|;
        if |b| < room {
          ReceivedStops(q[1..], len, got + b);
        } else {
          AllPush(b[room..], q[1..]);
          hide Behind;
          assert |got + b[..room]| == len;
        }
      } else if q[0].Eintr? {
        ReceivedStops(q[1..], len, got);
      }
    }
  }

  /** doReceive asked for more than comes before the next blocker. */
  lemma {:induction false} FellShort(q: seq<Event>, len: nat)
    requires QueueOk(q) && |Clear(q)| < len
    ensures Received(q, len, []).rest == Behind(q) && Received(q, len, []).code != len
  {
    AllOrFewer(q, len);
    ReceivedAll(q, len, []);
    ReceivedStops(q, len, []);
    hide Received, Clear, Behind;
  }

  /** Where a failed reception leaves the stream: behind the blocker, with precisely the clear bytes
      lost, be they part of a header, a whole header, or a header and part of a payload. */
  lemma {:induction false} FailedReceive(d: Direction, q: seq<Event>)
    requires QueueOk(q) && Parse(d, Clear(q)).None?
    ensures ReceivePacket(d, q) == Invalid(Behind(q)) && All(q) == Clear(q) + All(Behind(q))
  {
    var bytes := Clear(q);
    ClearThenBehind(q);
    hide Received, Clear, All, Behind, DecodeHeader;
    if |bytes| < HEADER_SIZE {
      FellShort(q, HEADER_SIZE);
    } else {
      AllOrFewer(q, HEADER_SIZE);
      ReceivedStops(q, HEADER_SIZE, []);
      var o := Received(q, HEADER_SIZE, []);
      FellShort(o.rest, DecodeHeader(o.got).count);
    }
  }

  /** Got or not, a reception takes its bytes off the front of all that comes. */
  lemma {:induction false} GotConserves(d: Direction, q: seq<Event>)
    requires QueueOk(q) && Parse(d, Clear(q)).Some?
    ensures var r := ReceivePacket(d, q);
            r.Got? && All(q) == Encode(r.p) + All(r.rest) && Behind(r.rest) == Behind(q)
  {
    ReceiveIsParse(d, q);
    EncodeParse(d, Clear(q));
    var r := ReceivePacket(d, q);
    GotLeavesBehind(d, q);
    ClearThenBehind(q);
    ClearThenBehind(r.rest);
    hide ReceivePacket, Clear, All, Behind, Encode;
    JoinAssociates(Encode(r.p), Clear(r.rest), All(Behind(q)));
  }

  lemma {:induction false} GotLeavesBehind(d: Direction, q: seq<Event>)
    requires QueueOk(q) && ReceivePacket(d, q).Got?
    ensures Behind(ReceivePacket(d, q).rest) == Behind(q)
  {
    CodeSaysAll(q, HEADER_SIZE);
    ReceivedStops(q, HEADER_SIZE, []);
    hide Received, Behind, DecodeHeader;
    var o := Received(q, HEADER_SIZE, []);
    var h := DecodeHeader(o.got);
    if CarriesPayload(d, h) {
      CodeSaysAll(o.rest, h.count);
      ReceivedStops(o.rest, h.count, []);
    }
  }

  lemma {:induction false} CodeSaysAll(q: seq<Event>, len: nat)
    requires QueueOk(q) && len > 0
    ensures Received(q, len, []).code == len <==> |Received(q, len, []).got| == len
  {
    ReceivedAll(q, len, []);
    hide Received, Clear;
  }

  /** A stream position at which a packet begins or the stream ends. */
  predicate Boundary(ps: seq<Packet>, at: nat) {
    exists n :: 0 <= n <= |ps| && at == |EncodeAll(ps[..n])|
  }

  lemma {:induction false} FirstBoundary(d: Direction, ps: seq<Packet>, at: nat)
    requires forall k :: 0 <= k < |ps| ==> WellFormed(d, ps[k])
    requires at <= |EncodeAll(ps)| && Parse(d, EncodeAll(ps)[..at]).None?
    ensures ps != [] ==> at < |Encode(ps[0])|
    ensures Boundary(ps, at) <==> at == 0
  {
    assert EncodeAll(ps[..0]) == [];
    if ps != [] {
      PrefixParses(d, ps, at);
      forall n | 0 < n <= |ps| ensures |EncodeAll(ps[..n])| >= |Encode(ps[0])| {
        assert ps[..n][0] == ps[0];
      }
    }
  }

  lemma {:induction false} PrefixParses(d: Direction, ps: seq<Packet>, at: nat)
    requires ps != [] && WellFormed(d, ps[0]) && at <= |EncodeAll(ps)|
    ensures at >= |Encode(ps[0])| ==> Parse(d, EncodeAll(ps)[..at]).Some?
  {
    var first, rest := Encode(ps[0]), EncodeAll(ps[1..]);
    if at >= |first| {
      ParseEncode(d, ps[0], rest[..at - |first|]);
      hide Parse, Encode, EncodeAll;
      assert (first + rest)[..at] == first + rest[..at - |first|];
    }
  }

  /** Whatever is received next starts at the first byte that comes. */
  lemma {:induction false} NextHeader(d: Direction, q: seq<Event>)
    requires QueueOk(q) && ReceivePacket(d, q).Got?
    ensures HEADER_SIZE <= |All(q)| && ReceivePacket(d, q).p.h == DecodeHeader(All(q)[..HEADER_SIZE])
  {
    ReceiveIsParse(d, q);
    ClearThenBehind(q);
    hide Clear, All, Behind, ReceivePacket, DecodeHeader;
    assert All(q)[..HEADER_SIZE] == Clear(q)[..HEADER_SIZE];
  }

  lemma CutOff(a: seq<Byte>, b: seq<Byte>)
    ensures (a + b)[..|a|] == a && (a + b)[|a|..] == b
    ensures HEADER_SIZE <= |b| ==> (a + b)[|a|..|a| + HEADER_SIZE] == b[..HEADER_SIZE]
  {
  }

  /** For any packets, cut by timeouts and interruptions in any way: a reception that fails leaves the
      next one at a packet boundary if and only if nothing of a packet had come. Otherwise the next header
      is read from the middle of the packet. */
  lemma {:induction false} FailureKeepsBoundary(d: Direction, ps: seq<Packet>, q: seq<Event>)
    requires QueueOk(q) && All(q) == EncodeAll(ps) && Parse(d, Clear(q)).None?
    requires forall k :: 0 <= k < |ps| ==> WellFormed(d, ps[k])
    ensures var cut, left := |Clear(q)|, Behind(q);
            && ReceivePacket(d, q) == Invalid(left)
            && cut <= |EncodeAll(ps)| && All(left) == EncodeAll(ps)[cut..]
            && (Boundary(ps, cut) <==> Clear(q) == [])
            && (ReceivePacket(d, left).Got? ==>
                  && cut + HEADER_SIZE <= |EncodeAll(ps)|
                  && ReceivePacket(d, left).p.h == DecodeHeader(EncodeAll(ps)[cut..cut + HEADER_SIZE]))
  {
    FailedReceive(d, q);
    var bytes, cut, left := EncodeAll(ps), |Clear(q)|, Behind(q);
    hide Clear, All, Behind, ReceivePacket, EncodeAll, DecodeHeader, Parse, Boundary, WellFormed;
    CutOff(Clear(q), All(left));
    FirstBoundary(d, ps, cut);
    if ReceivePacket(d, left).Got? {
      NextHeader(d, left);
    }
  }

  lemma {:induction false} DrainIsPrefix(d: Direction, q: seq<Event>)
    requires QueueOk(q)
    ensures |EncodeAll(Drain(d, q))| <= |Clear(q)|
    decreases |Clear(q)|
  {
    ReceiveIsParse(d, q);
    if Parse(d, Clear(q)).Some? {
      EncodeParse(d, Clear(q));
      var r := ReceivePacket(d, q);
      hide ReceivePacket, Clear, Encode;
      DrainIsPrefix(d, r.rest);
      assert Drain(d, q) == [r.p] + Drain(d, r.rest);
      assert ([r.p] + Drain(d, r.rest))[1..] == Drain(d, r.rest);
    }
  }

  /** The read that times out once: the packets sent to the bridge are received all the same, by those
      that read after it, if and only if the timeout came before any byte of them. */
  lemma {:induction false} TimeoutKeepsFraming(ps: seq<Packet>, q: seq<Event>)
    requires QueueOk(q) && All(q) == EncodeAll(ps) && Parse(ToBridge, Clear(q)).None?
    requires forall k :: 0 <= k < |ps| ==> WellFormed(ToBridge, ps[k])
    requires Clear(Behind(q)) == All(Behind(q))
    ensures ReceivePacket(ToBridge, q) == Invalid(Behind(q))
    ensures Drain(ToBridge, Behind(q)) == ps <==> Clear(q) == []
  {
    FailedReceive(ToBridge, q);
    hide Clear, All, Behind, ReceivePacket, Drain, EncodeAll;
    if Clear(q) == [] {
      assert [] + All(Behind(q)) == All(Behind(q));
      FramingRoundTrip(ps, Behind(q));
    } else {
      DrainIsPrefix(ToBridge, Behind(q));
    }
  }

  /** The payload the next header announces. */
  function Announced(q: seq<Event>): nat {
    var clear := Clear(q);
    if |clear| < HEADER_SIZE then 0 else PayloadSize(ToBridge, DecodeHeader(clear[..HEADER_SIZE]))
  }

  /** The smallest case: a timeout inside a header. The bytes already taken are gone. */
  lemma TimeoutInsidePacket(p: Packet, cut: nat)
    requires WellFormed(ToBridge, p) && 0 < cut < HEADER_SIZE
    ensures var e := EncodeHeader(p.h);
            var q := [Chunk(e[..cut]), Eagain, Chunk(e[cut..] + p.payload)];
            && QueueOk(q)
            && ReceivePacket(ToBridge, q) == Invalid([Chunk(e[cut..] + p.payload)])
  {
    var e := EncodeHeader(p.h);
    var q := [Chunk(e[..cut]), Eagain, Chunk(e[cut..] + p.payload)];
    assert q[1..][0] == Eagain && q[1..][1..] == [Chunk(e[cut..] + p.payload)];
    assert Received(q, HEADER_SIZE, []) == Received(q[1..], HEADER_SIZE, [] + e[..cut]);
  }

  /** A connected stream socket, seen from the receiving side. */
  class Socket {
    var queue: seq<Event>

    predicate Valid()
      reads this
    {
      QueueOk(queue)
    }

    constructor (events: seq<Event>)
      requires QueueOk(events)
      ensures Valid() && queue == events
    {
      queue := events;
    }

    method Copy(b: seq<Byte>, buf: array<Byte>, at: nat)
      requires at + |b| <= buf.Length
      modifies buf
      ensures buf[..] == old(buf[..at]) + b + old(buf[at + |b|..])
    {
      forall k | 0 <= k < |b| {
        buf[at + k] := b[k];
      }
    }

    /** recv into buf[at..at + room]: the byte count or -1, and whether errno says timeout or EINTR. */
    method Recv(buf: array<Byte>, at: nat, room: nat) returns (n: int, again: bool, interrupted: bool)
      requires Valid() && room > 0 && at + room <= buf.Length
      modifies this, buf
      ensures Valid() && buf[..at] == old(buf[..at]) && buf[at + room..] == old(buf[at + room..])
      ensures if old(queue) == [] then n == 0 && queue == [] && unchanged(buf) else
                match old(queue)[0]
                case Eintr => n == -1 && !again && interrupted && queue == old(queue)[1..] && unchanged(buf)
                case Eagain => n == -1 && again && queue == old(queue)[1..] && unchanged(buf)
                case Fault => n == -1 && !again && !interrupted && queue == old(queue)[1..] && unchanged(buf)
                case Chunk(b) =>
                  && n == (if |b| < room then |b| else room)
                  && queue == Push(b[n..], old(queue)[1..])
                  && buf[at..at + n] == b[..n] && buf[at + n..] == old(buf[at + n..])
    {
      n, again, interrupted := -1, false, false;
      if queue == [] {
        n := 0;
      } else {
        match queue[0] {
          case Eintr => interrupted := true; queue := queue[1..];
          case Eagain => again := true; queue := queue[1..];
          case Fault => queue := queue[1..];
          case Chunk(b) =>
            n := if |b| < room then |b| else room;
            Copy(b[..n], buf, at);
            queue := Push(b[n..], queue[1..]);
        }
      }
    }

    /** doReceive. */
    method DoReceive(buf: array<Byte>, len: nat) returns (code: int)
      requires Valid() && 0 < len <= buf.Length
      modifies this, buf
      ensures Valid()
      ensures var o := Received(old(queue), len, []);
              && code == o.code && queue == o.rest
              && buf[..|o.got|] == o.got && buf[len..] == old(buf[len..])
    {
      var total := 0;
      while true
        invariant Valid() && total < len && buf[len..] == old(buf[len..])
        invariant Received(queue, len, buf[..total]) == Received(old(queue), len, [])
        decreases |queue|
      {
        ghost var was, had := queue, buf[..total];
        hide Push;
        var n, again, interrupted := Recv(buf, total, len - total);
        if n < 0 {
          if again {
            return if total > 0 then total else TIMEOUT;
          }
          if !interrupted {
            return ERROR;
          }
        } else if n == 0 {
          return SHUT_DOWN;
        } else {
          assert buf[..total + n] == had + was[0].bytes[..n];
          total := total + n;
          if total == len {
            return total;
          }
          assert was[0].bytes[..n] == was[0].bytes;
        }
      }
    }

    /** SocketChannel::receive with a data buffer. `overrun` says that the header announces more than
        the buffer holds: the code then has recv write behind it, and nothing is promised. */
    method ReceiveHeaderAndData(dbuf: array<Byte>) returns (ok: bool, overrun: bool, h: Header)
      requires Valid()
      modifies this, dbuf
      ensures Valid()
      ensures overrun <==> Announced(old(queue)) > dbuf.Length
      ensures overrun ==> !ok
      ensures !overrun ==>
                match ReceivePacket(ToBridge, old(queue))
                case Got(p, rest) =>
                  && ok && h == p.h && queue == rest
                  && |p.payload| <= dbuf.Length && dbuf[..|p.payload|] == p.payload
                case Invalid(rest) => !ok && h.kind == INVALID && queue == rest
    {
      AllOrFewer(queue, HEADER_SIZE);
      hide Received, Clear, DecodeHeader;
      ghost var o, clear := Received(queue, HEADER_SIZE, []), Clear(queue);
      var head := new Byte[HEADER_SIZE];
      var n := DoReceive(head, HEADER_SIZE);
      h, overrun := DecodeHeader(head[..]), false;
      if n != HEADER_SIZE {
        return false, false, h.(kind := INVALID);
      }
      assert head[..] == o.got == clear[..HEADER_SIZE];
      ok := true;
      if h.count > 0 {
        if h.count > dbuf.Length {
          return false, true, h;
        }
        n := DoReceive(dbuf, h.count);
        if n != h.count {
          return false, false, h.(kind := INVALID);
        }
        AllOrFewer(o.rest, h.count);
      }
    }
  }
}
