/** The soft-TLP packet (common/include/protocol.h): the 16-byte packed header, the payload rule of each
    direction, and streams of packets as bytes. */
module Protocol {

  type Byte = x: int | 0 <= x < 0x100
  type U16 = x: int | 0 <= x < 0x1_0000
  type U32 = x: int | 0 <= x < 0x1_0000_0000
  type U64 = x: int | 0 <= x < 0x1_0000_0000_0000_0000

  const INVALID: Byte := 0
  const ACK: Byte := 1
  const NACK: Byte := 2
  const STATUS: Byte := 3
  const MEM_RD: Byte := 4
  const MEM_WR: Byte := 5
  const CFG_RD: Byte := 6
  const CFG_WR: Byte := 7
  const MSG: Byte := 8

  const HEADER_SIZE: nat := 16

  datatype Option<T> = None | Some(value: T)

  /** struct Protocol. `pad` is never set by the constructor, so any byte may go out in it. */
  datatype Header = Header(addr: U64, reqId: U16, count: U16, kind: Byte, tag: Byte, status: Byte, pad: Byte)

  predicate IsRead(kind: Byte) {
    kind == MEM_RD || kind == CFG_RD
  }

  predicate IsWrite(kind: Byte) {
    kind == MEM_WR || kind == CFG_WR
  }

  predicate IsMemory(kind: Byte) {
    kind == MEM_RD || kind == MEM_WR
  }

  // ---- Little-endian fields ----

  function Pow256(n: nat): (p: nat)
    ensures p > 0
  {
    if n == 0 then 1 else 256 * Pow256(n - 1)
  }

  function Le(x: nat, n: nat): (s: seq<Byte>)
    ensures |s| == n
  {
    if n == 0 then [] else [x % 256] + Le(x / 256, n - 1)
  }

  function FromLe(s: seq<Byte>): (x: nat)
    ensures x < Pow256(|s|)
  {
    if s == [] then 0 else s[0] + 256 * FromLe(s[1..])
  }

  lemma SplitByte(b: Byte, rest: nat)
    ensures (b + 256 * rest) % 256 == b && (b + 256 * rest) / 256 == rest
  {
  }

  lemma {:induction false} LeRoundTrip(x: nat, n: nat)
    requires x < Pow256(n)
    ensures FromLe(Le(x, n)) == x
  {
    if n > 0 {
      LeRoundTrip(x / 256, n - 1);
      assert Le(x, n)[1..] == Le(x / 256, n - 1);
    }
  }

  lemma {:induction false} FromLeRoundTrip(s: seq<Byte>)
    ensures Le(FromLe(s), |s|) == s
  {
    if s != [] {
      FromLeRoundTrip(s[1..]);
      var rest := FromLe(s[1..]);
      SplitByte(s[0], rest);
      assert Le(s[0] + 256 * rest, |s|) == [s[0]] + Le(rest, |s| - 1);
      assert s == [s[0]] + s[1..];
    }
  }

  lemma FieldSizes()
    ensures Pow256(1) == 0x100 && Pow256(2) == 0x1_0000
    ensures Pow256(4) == 0x1_0000_0000 && Pow256(8) == 0x1_0000_0000_0000_0000
  {
    assert Pow256(4) == 256 * (256 * Pow256(2));
    assert Pow256(8) == 256 * (256 * (256 * (256 * Pow256(4))));
  }

  // ---- Header ----

  function EncodeHeader(h: Header): (s: seq<Byte>)
    ensures |s| == HEADER_SIZE
  {
    Le(h.addr, 8) + Le(h.reqId, 2) + Le(h.count, 2) + [h.kind, h.tag, h.status, h.pad]
  }

  function DecodeHeader(s: seq<Byte>): Header
    requires |s| == HEADER_SIZE
  {
    FieldSizes();
    Header(FromLe(s[..8]), FromLe(s[8..10]), FromLe(s[10..12]), s[12], s[13], s[14], s[15])
  }

  lemma DecodeEncodeHeader(h: Header)
    ensures DecodeHeader(EncodeHeader(h)) == h
  {
    FieldSizes();
    var s := EncodeHeader(h);
    assert s[..8] == Le(h.addr, 8) && s[8..10] == Le(h.reqId, 2) && s[10..12] == Le(h.count, 2);
    LeRoundTrip(h.addr, 8);
    LeRoundTrip(h.reqId, 2);
    LeRoundTrip(h.count, 2);
  }

  /** Every 16 bytes are some header, and only that header encodes to them. */
  lemma EncodeDecodeHeader(s: seq<Byte>)
    requires |s| == HEADER_SIZE
    ensures EncodeHeader(DecodeHeader(s)) == s
  {
    FromLeRoundTrip(s[..8]);
    FromLeRoundTrip(s[8..10]);
    FromLeRoundTrip(s[10..12]);
  }

  // ---- Packets and streams ----

  /** Bridge to simulator: a count is followed by that many bytes only in writes. Simulator to bridge:
      a count always is, because the bridge always passes a buffer. */
  datatype Direction = ToSim | ToBridge

  predicate CarriesPayload(d: Direction, h: Header) {
    h.count > 0 && (d.ToBridge? || IsWrite(h.kind))
  }

  datatype Packet = Packet(h: Header, payload: seq<Byte>)

  function PayloadSize(d: Direction, h: Header): nat {
    if CarriesPayload(d, h) then h.count else 0
  }

  predicate WellFormed(d: Direction, p: Packet) {
    |p.payload| == PayloadSize(d, p.h)
  }

  function Encode(p: Packet): (s: seq<Byte>)
    ensures |s| == HEADER_SIZE + |p.payload|
  {
    EncodeHeader(p.h) + p.payload
  }

  function EncodeAll(ps: seq<Packet>): seq<Byte> {
    if ps == [] then [] else Encode(ps[0]) + EncodeAll(ps[1..])
  }

  /** The first packet of a stream and the bytes behind it, if it is there in full. */
  function Parse(d: Direction, s: seq<Byte>): Option<(Packet, seq<Byte>)> {
    if |s| < HEADER_SIZE then None
    else
      var h := DecodeHeader(s[..HEADER_SIZE]);
      var n := HEADER_SIZE + PayloadSize(d, h);
      if |s| < n then None else Some((Packet(h, s[HEADER_SIZE..n]), s[n..]))
  }

  lemma ParseEncode(d: Direction, p: Packet, rest: seq<Byte>)
    requires WellFormed(d, p)
    ensures Parse(d, Encode(p) + rest) == Some((p, rest))
  {
    var s := Encode(p) + rest;
    assert s[..HEADER_SIZE] == EncodeHeader(p.h);
    DecodeEncodeHeader(p.h);
    assert s[HEADER_SIZE..HEADER_SIZE + |p.payload|] == p.payload;
    assert s[HEADER_SIZE + |p.payload|..] == rest;
  }

  /** What parses is exactly what would have been sent. */
  lemma EncodeParse(d: Direction, s: seq<Byte>)
    requires Parse(d, s).Some?
    ensures var (p, rest) := Parse(d, s).value; WellFormed(d, p) && s == Encode(p) + rest
  {
    EncodeDecodeHeader(s[..HEADER_SIZE]);
  }

  /** Bytes that come later do not change the first packet. */
  lemma ParseMore(d: Direction, s: seq<Byte>, more: seq<Byte>)
    requires Parse(d, s).Some?
    ensures Parse(d, s + more) == Some((Parse(d, s).value.0, Parse(d, s).value.1 + more))
  {
    var (p, rest) := Parse(d, s).value;
    EncodeParse(d, s);
    hide Encode, Parse;
    JoinAssociates(Encode(p), rest, more);
    ParseEncode(d, p, rest + more);
  }

  lemma {:induction false} EncodeAllSnoc(ps: seq<Packet>, p: Packet)
    ensures EncodeAll(ps + [p]) == EncodeAll(ps) + Encode(p)
  {
    if ps == [] {
      assert [p][1..] == [];
    } else {
      var all := ps + [p];
      EncodeAllSnoc(ps[1..], p);
      assert all[0] == ps[0] && all[1..] == ps[1..] + [p];
      JoinAssociates(Encode(ps[0]), EncodeAll(ps[1..]), Encode(p));
    }
  }

  lemma JoinAssociates(a: seq<Byte>, b: seq<Byte>, c: seq<Byte>)
    ensures a + (b + c) == (a + b) + c
  {
  }
}
