/** The packets byte by byte, as the other side's compiler would see them (common/include/protocol.h): the
    layout, the byte order and the numbers of the packet types, written out. */
module WireFormat {
  import opened Protocol
  import opened Device
  import Tlp = SoftTlp
  import Bridge

  /** Eight bytes that spell offset and BAR. */
  function AddressBytes(offset: nat, bar: nat): seq<Byte>
    requires offset < 0x1_0000 && bar < 0x100
  {
    [offset % 0x100, offset / 0x100, 0, 0, 0, 0, 0, bar]
  }

  lemma {:induction false} TwoBytes(x: U16)
    ensures Le(x, 2) == [x % 0x100, x / 0x100]
  {
    assert Le(x / 0x100, 1) == [x / 0x100 % 0x100] + Le(x / 0x100 / 0x100, 0);
  }

  lemma {:induction false} ByteFirst(b: Byte, s: seq<Byte>)
    ensures FromLe([b] + s) == b as nat + 0x100 * FromLe(s)
  {
    assert ([b] + s)[1..] == s;
  }

  lemma AddressIs(offset: nat, bar: nat)
    requires offset < 0x1_0000 && bar < 0x100
    ensures FromLe(AddressBytes(offset, bar)) == offset + bar * 0x100_0000_0000_0000
  {
    var zero: Byte, last: Byte := 0, bar;
    ByteFirst(last, []);
    ByteFirst(zero, [last]);
    ByteFirst(zero, [zero] + [last]);
    ByteFirst(zero, [zero] + ([zero] + [last]));
    ByteFirst(zero, [zero] + ([zero] + ([zero] + [last])));
    ByteFirst(zero, [zero] + ([zero] + ([zero] + ([zero] + [last]))));
    var rest := [zero] + ([zero] + ([zero] + ([zero] + ([zero] + [last]))));
    var b0: Byte, b1: Byte := offset % 0x100, offset / 0x100;
    assert FromLe([]) == 0 && [last] + [] == [last];
    ByteFirst(b1, rest);
    ByteFirst(b0, [b1] + rest);
    hide FromLe;
    assert AddressBytes(offset, bar) == [b0] + ([b1] + rest);
  }

  /** The eight bytes behind the address. */
  function Fields(reqId: U16, count: U16, kind: Byte, tag: Byte, status: Byte, pad: Byte): (s: seq<Byte>)
    ensures |s| == 8
  {
    [reqId % 0x100, reqId / 0x100, count % 0x100, count / 0x100, kind, tag, status, pad]
  }

  /** The sixteen bytes of any header: where each field is and that it is little-endian. */
  lemma HeaderOnTheWire(h: Header)
    ensures EncodeHeader(h) == Le(h.addr, 8) + Fields(h.reqId, h.count, h.kind, h.tag, h.status, h.pad)
  {
    TwoBytes(h.reqId);
    TwoBytes(h.count);
    var a, b, c, d := Le(h.addr, 8), Le(h.reqId, 2), Le(h.count, 2), [h.kind, h.tag, h.status, h.pad];
    assert EncodeHeader(h) == a + b + c + d;
    hide Le;
    assert b + c + d == Fields(h.reqId, h.count, h.kind, h.tag, h.status, h.pad);
    assert a + b + c + d == a + (b + c + d);
  }

  lemma {:induction false} AddressOnTheWire(offset: nat, bar: nat)
    requires offset < 0x1_0000 && bar < 0x100
    ensures Le(offset + bar * 0x100_0000_0000_0000, 8) == AddressBytes(offset, bar)
  {
    AddressIs(offset, bar);
    FromLeRoundTrip(AddressBytes(offset, bar));
  }

  lemma Parts(a: seq<Byte>, b: seq<Byte>, c: seq<Byte>)
    requires |a| == |b| == 8
    ensures var s := (a + b) + c; |s| == 16 + |c| && s[..8] == a && s[8..16] == b && s[16..] == c
  {
  }

  /** A request: offset and BAR in the address, the bridge's requester id 0x0100, MEM_RD as 4 and MEM_WR
      as 5, the tag, and the data of a write behind the header. */
  lemma RequestOnTheWire(a: Access, tag: Byte, pad: Byte)
    requires AccessOk(a)
    ensures var s := Encode(RequestPacket(a, tag, pad));
            && |s| == 16 + |a.data|
            && s[..8] == [a.offset % 0x100, a.offset / 0x100, 0, 0, 0, 0, 0, a.bar]
            && s[8..16] == [0x00, 0x01, a.count % 0x100, a.count / 0x100, if a.write then 5 else 4, tag, 0, pad]
            && s[16..] == a.data
  {
    var h := RequestPacket(a, tag, pad).h;
    hide EncodeHeader, Le, Fields;
    HeaderOnTheWire(h);
    AddressOnTheWire(a.offset, a.bar);
    Parts(AddressBytes(a.offset, a.bar), Fields(h.reqId, h.count, h.kind, tag, 0, pad), a.data);
    RequestFields(a.count, if a.write then 5 else 4, tag, pad);
  }

  lemma RequestFields(count: U16, kind: Byte, tag: Byte, pad: Byte)
    ensures Fields(0x0100, count, kind, tag, 0, pad) == [0x00, 0x01, count % 0x100, count / 0x100, kind, tag, 0, pad]
  {
  }

  /** Its acknowledgement: the request's address, count and tag, type 1, no requester, then the data. */
  lemma AcknowledgementOnTheWire(h: Header, data: seq<Byte>, pad: Byte)
    ensures var s := Encode(Acknowledgement(h, data, pad));
            && |s| == 16 + |data| && s[..8] == EncodeHeader(h)[..8]
            && s[8..16] == [0, 0, h.count % 0x100, h.count / 0x100, 1, h.tag, 0, pad]
            && s[16..] == data
  {
    hide EncodeHeader, Le;
    HeaderOnTheWire(Acknowledgement(h, data, pad).h);
    HeaderOnTheWire(h);
    Parts(Le(h.addr, 8), Fields(0, h.count, 1, h.tag, 0, pad), data);
  }

  /** The interrupt message: type 8, four bytes, vector 0. */
  lemma InterruptOnTheWire(pad: Byte)
    ensures var s := Encode(InterruptMessage(pad));
            && |s| == 20 && s[..8] == [0, 0, 0, 0, 0, 0, 0, 0]
            && s[8..16] == [0, 0, 4, 0, 8, 0, 0, pad] && s[16..] == [0, 0, 0, 0]
  {
    hide EncodeHeader, Le;
    HeaderOnTheWire(InterruptMessage(pad).h);
    AddressOnTheWire(0, 0);
    Parts(AddressBytes(0, 0), Fields(0, 4, 8, 0, 0, pad), [0, 0, 0, 0]);
  }

  /** What follows a header: towards the simulator its count in bytes if its type is 5 or 7, nothing
      otherwise; towards the bridge its count in bytes, whatever its type. */
  lemma PayloadFollows(h: Header)
    ensures PayloadSize(ToSim, h) == if h.kind == 5 || h.kind == 7 then h.count else 0
    ensures PayloadSize(ToBridge, h) == h.count
  {
  }

  /** A call with any count: the header carries its low sixteen bits, the tag and the type, and as many bytes
      of data follow as it says. */
  lemma PackedOnTheWire(bar: nat, offset: nat, count: nat, write: bool, data: seq<Byte>, tag: Byte, pad: Byte)
    requires bar <= 1 && offset < 0x1_0000 && |data| == (if write then count % 0x1_0000 else 0)
    ensures var s := Encode(Bridge.PackedRequest(bar, offset, count, write, data, tag, pad));
            && |s| == 16 + |data| && s[..8] == [offset % 0x100, offset / 0x100, 0, 0, 0, 0, 0, bar]
            && s[8..16] == [0x00, 0x01, count % 0x1_0000 % 0x100, count % 0x1_0000 / 0x100,
                            if write then 5 else 4, tag, 0, pad]
            && s[16..] == data
  {
    var h := Bridge.PackedRequest(bar, offset, count, write, data, tag, pad).h;
    hide EncodeHeader, Le, Fields;
    HeaderOnTheWire(h);
    AddressOnTheWire(offset, bar);
    Parts(AddressBytes(offset, bar), Fields(h.reqId, h.count, h.kind, tag, 0, pad), data);
    RequestFields(count % 0x1_0000, if write then 5 else 4, tag, pad);
  }

  /** In every run of the system: the k-th request ever sent, counted from 0, is on the wire the k-th access
      issued, under tag k + 1 modulo 256. */
  lemma {:induction false} RunsSendTheirAccesses(d0: Regs, es: seq<Tlp.Event>, c: Tlp.Config, k: nat)
    requires RegsOk(d0) && Tlp.Reaches(d0, es, c) && k < |c.h.issued|
    ensures |c.h.sent| == |c.h.issued| && AccessOk(c.h.issued[k])
    ensures var s, a := Encode(c.h.sent[k]), c.h.issued[k];
            && |s| == 16 + |a.data|
            && s[..8] == [a.offset % 0x100, a.offset / 0x100, 0, 0, 0, 0, 0, a.bar]
            && s[8..15] == [0x00, 0x01, a.count % 0x100, a.count / 0x100, if a.write then 5 else 4, (k + 1) % 256, 0]
            && s[16..] == a.data
  {
    Tlp.RunsAreGood(d0, es, c);
    var p, a := c.h.sent[k], c.h.issued[k];
    assert Tlp.IsRequest(p, a, k) && AccessOk(a);
    RequestOnTheWire(a, Tlp.TagOf(k), p.h.pad);
    hide Encode;
    var s := Encode(p);
    assert s[8..15] == s[8..16][..7];
  }
}
