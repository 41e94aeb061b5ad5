/** The end point behind the packets: BAR dispatch (src/sim/pcie_cosim.cpp) over a register file whose
    words are read and written atomically. */
module Device {
  import opened Protocol

  const BAR0_WORDS: nat := 0x200
  const BAR1_WORDS: nat := 0x400
  const MAX_COUNT: nat := 1024
  const BAR_SIZE: nat := 0x1000
  const BAR_UNIT: nat := 0x100_0000_0000_0000
  const MAGIC: U32 := 0xACDC_BABE

  /** BAR0 is the RAM as the RTL addresses it, by tdata[10:2]; BAR1 is `mock_reg`. */
  datatype Regs = Regs(bar0: seq<U32>, bar1: seq<U32>)

  predicate RegsOk(d: Regs) {
    |d.bar0| == BAR0_WORDS && |d.bar1| == BAR1_WORDS
  }

  /** What vfio-user asks of a BAR; `data` is what a write carries. */
  datatype Access = Access(write: bool, bar: nat, offset: nat, count: nat, data: seq<Byte>)

  /** Aligned word accesses inside the 4 KB region, at most 1024 bytes. */
  predicate AccessOk(a: Access) {
    && a.bar <= 1
    && a.offset % 4 == 0 && a.count % 4 == 0 && 0 < a.count <= MAX_COUNT
    && a.offset + a.count <= BAR_SIZE
    && |a.data| == (if a.write then a.count else 0)
  }

  // ---- Words ----

  function WordAt(s: seq<Byte>, k: nat): U32
    requires 4 * k + 4 <= |s|
  {
    FieldSizes();
    FromLe(s[4 * k..4 * k + 4])
  }

  function BytesOf(ws: seq<U32>): (s: seq<Byte>)
    ensures |s| == 4 * |ws|
  {
    if ws == [] then [] else Le(ws[0], 4) + BytesOf(ws[1..])
  }

  /** Word `k` of BAR0 above byte offset `offset`. */
  function Slot(offset: nat, k: nat): (s: nat)
    ensures s < BAR0_WORDS
  {
    (offset / 4 + k) % BAR0_WORDS
  }

  // ---- The sequential device ----

  /** BAR0 after the first `n` words of a write. Slots do not repeat inside one packet. */
  function Bar0Written(bar0: seq<U32>, offset: nat, data: seq<Byte>, n: nat): (r: seq<U32>)
    requires |bar0| == BAR0_WORDS && 4 * n <= |data|
    ensures |r| == BAR0_WORDS
  {
    if n == 0 then bar0
    else Bar0Written(bar0, offset, data, n - 1)[Slot(offset, n - 1) := WordAt(data, n - 1)]
  }

  /** BAR1 is indexed from word 0, whatever the offset. */
  function Bar1Written(bar1: seq<U32>, data: seq<Byte>): (r: seq<U32>)
    requires |bar1| == BAR1_WORDS && |data| <= MAX_COUNT
    ensures |r| == BAR1_WORDS
  {
    seq(BAR1_WORDS, k requires 0 <= k < BAR1_WORDS => if 4 * k + 4 <= |data| then WordAt(data, k) else bar1[k])
  }

  /** A BAR0 write at offset 0 whose first word is the magic number asks for an interrupt. */
  predicate RaisesInterrupt(a: Access)
    requires AccessOk(a)
  {
    a.write && a.bar == 0 && a.offset == 0 && WordAt(a.data, 0) == MAGIC
  }

  function After(d: Regs, a: Access): (r: Regs)
    requires RegsOk(d) && AccessOk(a)
    ensures RegsOk(r)
  {
    if !a.write || RaisesInterrupt(a) then d
    else if a.bar == 0 then d.(bar0 := Bar0Written(d.bar0, a.offset, a.data, a.count / 4))
    else d.(bar1 := Bar1Written(d.bar1, a.data))
  }

  function ReadWords(d: Regs, a: Access): (ws: seq<U32>)
    requires RegsOk(d) && AccessOk(a)
    ensures |ws| == a.count / 4
  {
    seq(a.count / 4, k requires 0 <= k < a.count / 4 =>
      if a.bar == 0 then d.bar0[Slot(a.offset, k)] else d.bar1[k])
  }

  predicate AllOk(log: seq<Access>) {
    forall k :: 0 <= k < |log| ==> AccessOk(log[k])
  }

  /** The registers after a sequence of accesses, one at a time. */
  function AfterAll(d: Regs, log: seq<Access>): (r: Regs)
    requires RegsOk(d) && AllOk(log)
    ensures RegsOk(r)
  {
    if log == [] then d else After(AfterAll(d, log[..|log| - 1]), log[|log| - 1])
  }

  /** What read `k` must return: the registers after everything issued before it. */
  function Response(d: Regs, log: seq<Access>, k: nat): seq<Byte>
    requires RegsOk(d) && AllOk(log) && k < |log|
  {
    BytesOf(ReadWords(AfterAll(d, log[..k]), log[k]))
  }

  function Interrupts(log: seq<Access>): nat
    requires AllOk(log)
  {
    if log == [] then 0
    else Interrupts(log[..|log| - 1]) + (if RaisesInterrupt(log[|log| - 1]) then 1 else 0)
  }

  // ---- Meaning of the register file ----

  lemma SlotsDiffer(offset: nat, j: nat, k: nat)
    requires offset % 4 == 0 && j < k < j + BAR0_WORDS
    ensures Slot(offset, j) != Slot(offset, k)
  {
    var p, q := offset / 4 + j, offset / 4 + k;
    assert p == BAR0_WORDS * (p / BAR0_WORDS) + Slot(offset, j);
    assert q == BAR0_WORDS * (q / BAR0_WORDS) + Slot(offset, k);
  }

  lemma {:induction false} Bar0WrittenAt(bar0: seq<U32>, offset: nat, data: seq<Byte>, n: nat, k: nat)
    requires |bar0| == BAR0_WORDS && offset % 4 == 0 && 4 * n <= |data| <= MAX_COUNT && k < n
    ensures Bar0Written(bar0, offset, data, n)[Slot(offset, k)] == WordAt(data, k)
  {
    if k < n - 1 {
      Bar0WrittenAt(bar0, offset, data, n - 1, k);
      SlotsDiffer(offset, k, n - 1);
    }
  }

  lemma {:induction false} Bar0WrittenElsewhere(bar0: seq<U32>, offset: nat, data: seq<Byte>, n: nat, s: nat)
    requires |bar0| == BAR0_WORDS && 4 * n <= |data| && s < BAR0_WORDS
    requires forall k: nat :: k < n ==> Slot(offset, k) != s
    ensures Bar0Written(bar0, offset, data, n)[s] == bar0[s]
  {
    if n > 0 {
      Bar0WrittenElsewhere(bar0, offset, data, n - 1, s);
    }
  }

  lemma {:induction false} BytesOfWordAt(ws: seq<U32>, k: nat)
    requires k < |ws|
    ensures WordAt(BytesOf(ws), k) == ws[k]
  {
    FieldSizes();
    var s := BytesOf(ws);
    if k == 0 {
      assert s[0..4] == Le(ws[0], 4);
      LeRoundTrip(ws[0], 4);
    } else {
      BytesOfWordAt(ws[1..], k - 1);
      assert s[4 * k..4 * k + 4] == BytesOf(ws[1..])[4 * (k - 1)..4 * (k - 1) + 4];
    }
  }

  /** A read of what was just written gives it back, word for word, in BAR0 and in BAR1, unless the write
      was taken as an interrupt. */
  lemma ReadYourWrite(d: Regs, w: Access, r: Access, k: nat)
    requires RegsOk(d) && AccessOk(w) && AccessOk(r) && w.write && !r.write
    requires w.bar == r.bar && w.offset == r.offset && w.count == r.count && k < r.count / 4
    requires !RaisesInterrupt(w)
    ensures WordAt(BytesOf(ReadWords(After(d, w), r)), k) == WordAt(w.data, k)
  {
    BytesOfWordAt(ReadWords(After(d, w), r), k);
    if w.bar == 0 {
      Bar0WrittenAt(d.bar0, w.offset, w.data, w.count / 4, k);
    }
  }

  /** The accesses to one BAR, in order. */
  function OnlyBar(log: seq<Access>, bar: nat): (r: seq<Access>)
    requires AllOk(log)
    ensures AllOk(r)
  {
    if log == [] then []
    else
      var rest, a := OnlyBar(log[..|log| - 1], bar), log[|log| - 1];
      if a.bar == bar then rest + [a] else rest
  }

  lemma {:induction false} AfterAllSnoc(d: Regs, log: seq<Access>, a: Access)
    requires RegsOk(d) && AllOk(log) && AccessOk(a)
    ensures AllOk(log + [a]) && AfterAll(d, log + [a]) == After(AfterAll(d, log), a)
  {
    assert (log + [a])[..|log|] == log;
  }

  lemma {:induction false} OnlyBarSnoc(log: seq<Access>, a: Access, bar: nat)
    requires AllOk(log) && AccessOk(a)
    ensures OnlyBar(log + [a], bar) == OnlyBar(log, bar) + if a.bar == bar then [a] else []
  {
    assert (log + [a])[..|log|] == log;
  }

  lemma {:induction false} Bar0Independent(d: Regs, log: seq<Access>)
    requires RegsOk(d) && AllOk(log)
    ensures AfterAll(d, log).bar0 == AfterAll(d, OnlyBar(log, 0)).bar0
  {
    if log != [] {
      var before, a := log[..|log| - 1], log[|log| - 1];
      assert log == before + [a];
      Bar0Independent(d, before);
      AfterAllSnoc(d, before, a);
      AfterAllSnoc(d, OnlyBar(before, 0), a);
      OnlyBarSnoc(before, a, 0);
      hide AfterAll, OnlyBar;
    }
  }

  lemma {:induction false} Bar1Independent(d: Regs, log: seq<Access>)
    requires RegsOk(d) && AllOk(log)
    ensures AfterAll(d, log).bar1 == AfterAll(d, OnlyBar(log, 1)).bar1
  {
    if log != [] {
      var before, a := log[..|log| - 1], log[|log| - 1];
      assert log == before + [a];
      Bar1Independent(d, before);
      AfterAllSnoc(d, before, a);
      AfterAllSnoc(d, OnlyBar(before, 1), a);
      OnlyBarSnoc(before, a, 1);
      hide AfterAll, OnlyBar;
    }
  }

  /** The BARs do not disturb each other: each holds what it would hold had the other never been used. */
  lemma {:induction false} BarsAreIndependent(d: Regs, log: seq<Access>)
    requires RegsOk(d) && AllOk(log)
    ensures AfterAll(d, log).bar0 == AfterAll(d, OnlyBar(log, 0)).bar0
    ensures AfterAll(d, log).bar1 == AfterAll(d, OnlyBar(log, 1)).bar1
  {
    hide AfterAll, OnlyBar;
    Bar0Independent(d, log);
    Bar1Independent(d, log);
  }

  // ---- Packets ----

  const REQUESTER_ID: U16 := 0x0100

  /** The request packet of an access: pcie_addr is offset | bar << 56. */
  function RequestPacket(a: Access, tag: Byte, pad: Byte): (p: Packet)
    requires AccessOk(a)
    ensures WellFormed(ToSim, p)
  {
    Packet(Header(a.offset + a.bar * BAR_UNIT, REQUESTER_ID, a.count,
                  if a.write then MEM_WR else MEM_RD, tag, 0, pad), a.data)
  }

  /** The access a packet stands for, as doReadMem and doWriteMem take it apart. */
  function AccessOf(p: Packet): Access {
    Access(IsWrite(p.h.kind), p.h.addr / BAR_UNIT, p.h.addr % BAR_UNIT % 0x1_0000_0000, p.h.count, p.payload)
  }

  lemma PacketNamesAccess(a: Access, tag: Byte, pad: Byte)
    requires AccessOk(a)
    ensures AccessOf(RequestPacket(a, tag, pad)) == a
  {
  }

  /** The acknowledgement of a read: the request's address, count and tag, then the data. */
  function Acknowledgement(h: Header, data: seq<Byte>, pad: Byte): Packet {
    Packet(Header(h.addr, 0, h.count, ACK, h.tag, 0, pad), data)
  }

  /** The interrupt message sendAsync sends: vector 0. */
  function InterruptMessage(pad: Byte): (p: Packet)
    ensures WellFormed(ToBridge, p)
  {
    Packet(Header(0, 0, 4, MSG, 0, 0, pad), [0, 0, 0, 0])
  }

  // ---- The packet handlers, on any packet ----

  /** The 32-bit address of word `i`, as the loops count it up. */
  function WordAddress(h: Header, i: nat): U32 {
    (h.addr % BAR_UNIT + 4 * i) % 0x1_0000_0000
  }

  lemma NextAddress(h: Header, i: nat)
    ensures (WordAddress(h, i) + 4) % 0x1_0000_0000 == WordAddress(h, i + 1)
  {
  }

  /** Inside the region the count does not wrap. */
  lemma SmallAddress(h: Header, i: nat)
    requires WordAddress(h, 0) + 4 * i < BAR_SIZE
    ensures WordAddress(h, i) == WordAddress(h, 0) + 4 * i
  {
  }

  /** The RAM word that address selects: bits 10..2. */
  function RamWord(addr: U32): (s: nat)
    ensures s < BAR0_WORDS
  {
    addr / 4 % BAR0_WORDS
  }

  /** The magic number at address 0: the rest of the packet is dropped and an interrupt raised. */
  predicate AsksForInterrupt(h: Header, data: seq<Byte>, i: nat)
    requires 4 * i + 4 <= |data|
  {
    WordAddress(h, i) == 0 && WordAt(data, i) == MAGIC
  }

  /** BAR0 from the i-th word of a write on, and whether an interrupt is raised. */
  function Bar0From(bar0: seq<U32>, h: Header, data: seq<Byte>, i: nat): (r: (seq<U32>, bool))
    requires |bar0| == BAR0_WORDS && h.count <= |data| && i <= h.count / 4
    ensures |r.0| == BAR0_WORDS
    decreases h.count / 4 - i
  {
    if i == h.count / 4 then (bar0, false)
    else if AsksForInterrupt(h, data, i) then (bar0, true)
    else Bar0From(bar0[RamWord(WordAddress(h, i)) := WordAt(data, i)], h, data, i + 1)
  }

  datatype Effect = Effect(regs: Regs, interrupt: bool)

  /** doWrite on a packet that was received with its payload. */
  function Written(d: Regs, h: Header, data: seq<Byte>): (e: Effect)
    requires RegsOk(d) && h.count <= |data| <= MAX_COUNT
    ensures RegsOk(e.regs)
  {
    if h.kind != MEM_WR then Effect(d, false)
    else if h.addr / BAR_UNIT == 0 then
      var (bar0, interrupt) := Bar0From(d.bar0, h, data, 0);
      Effect(d.(bar0 := bar0), interrupt)
    else if h.addr / BAR_UNIT == 1 then Effect(d.(bar1 := Bar1Written(d.bar1, data[..h.count])), false)
    else Effect(d, false)
  }

  /** A read the end point fills the buffer for. */
  predicate Fills(h: Header) {
    h.kind == MEM_RD && h.addr / BAR_UNIT <= 1
  }

  /** The whole words of such a read. */
  function WordsRead(d: Regs, h: Header): (ws: seq<U32>)
    requires RegsOk(d) && h.count <= MAX_COUNT
    ensures |ws| == h.count / 4
  {
    seq(h.count / 4, k requires 0 <= k < h.count / 4 =>
      if h.addr / BAR_UNIT == 0 then d.bar0[RamWord(WordAddress(h, k))] else d.bar1[k])
  }

  // ---- The handlers are the sequential device ----

  lemma {:induction false} Bar0Rest(bar0: seq<U32>, h: Header, data: seq<Byte>, i: nat)
    requires |bar0| == BAR0_WORDS && h.count <= |data| && i <= h.count / 4
    requires WordAddress(h, 0) % 4 == 0 && WordAddress(h, 0) + h.count <= BAR_SIZE
    requires i > 0 || i == h.count / 4 || !AsksForInterrupt(h, data, 0)
    ensures var offset, n := WordAddress(h, 0), h.count / 4;
            Bar0From(Bar0Written(bar0, offset, data, i), h, data, i) == (Bar0Written(bar0, offset, data, n), false)
    decreases h.count / 4 - i
  {
    if i < h.count / 4 {
      SmallAddress(h, i);
      hide WordAddress, FromLe;
      assert RamWord(WordAddress(h, i)) == Slot(WordAddress(h, 0), i);
      Bar0Rest(bar0, h, data, i + 1);
    }
  }

  /** A write packet that stands for an access has the effect of that access. */
  lemma WrittenIsAfter(d: Regs, p: Packet)
    requires RegsOk(d) && p.h.kind == MEM_WR && AccessOk(AccessOf(p))
    ensures Written(d, p.h, p.payload) == Effect(After(d, AccessOf(p)), RaisesInterrupt(AccessOf(p)))
  {
    var a := AccessOf(p);
    assert WordAddress(p.h, 0) == a.offset && p.payload[..p.h.count] == p.payload;
    if a.bar == 0 && !AsksForInterrupt(p.h, p.payload, 0) {
      Bar0Rest(d.bar0, p.h, p.payload, 0);
    }
  }

  lemma WordsReadAreReadWords(d: Regs, p: Packet)
    requires RegsOk(d) && p.h.kind == MEM_RD && AccessOk(AccessOf(p))
    ensures Fills(p.h) && WordsRead(d, p.h) == ReadWords(d, AccessOf(p))
  {
    var a := AccessOf(p);
    assert WordAddress(p.h, 0) == a.offset;
    hide WordAddress;
    forall k | 0 <= k < a.count / 4
      ensures RamWord(WordAddress(p.h, k)) == Slot(a.offset, k)
    {
      SmallAddress(p.h, k);
    }
  }

  lemma {:induction false} BytesOfSnoc(ws: seq<U32>, w: U32)
    ensures BytesOf(ws + [w]) == BytesOf(ws) + Le(w, 4)
  {
    if ws == [] {
      assert [w][1..] == [];
      assert BytesOf([w]) == Le(w, 4) + BytesOf([]);
    } else {
      hide Le;
      BytesOfSnoc(ws[1..], w);
      assert (ws + [w])[0] == ws[0] && (ws + [w])[1..] == ws[1..] + [w];
      JoinAssociates(Le(ws[0], 4), BytesOf(ws[1..]), Le(w, 4));
    }
  }

  /** The simulator's packet handlers over a register file they update in place. */
  class EndPoint {
    const bar0: array<U32>
    const mockReg: array<U32>

    ghost function Contents(): Regs
      reads this, bar0, mockReg
    {
      Regs(bar0[..], mockReg[..])
    }

    ghost predicate Valid()
      reads this, bar0, mockReg
    {
      RegsOk(Contents()) && bar0 != mockReg
    }

    constructor (d: Regs)
      requires RegsOk(d)
      ensures Valid() && Contents() == d && fresh(bar0) && fresh(mockReg)
    {
      bar0 := new U32[BAR0_WORDS](k requires 0 <= k < BAR0_WORDS => d.bar0[k]);
      mockReg := new U32[BAR1_WORDS](k requires 0 <= k < BAR1_WORDS => d.bar1[k]);
    }

    /** doWrite, with ENABLE_MSI_TEST, on a payload of `len` bytes; `interrupt` says that sendAsync was
        called. */
    method DoWrite(h: Header, dbuf: array<Byte>, len: nat) returns (interrupt: bool)
      requires Valid() && h.count <= len <= dbuf.Length && len <= MAX_COUNT
      requires dbuf as object != bar0 && dbuf as object != mockReg
      modifies bar0, mockReg
      ensures Valid() && Effect(Contents(), interrupt) == Written(old(Contents()), h, dbuf[..len])
    {
      interrupt := false;
      if h.kind == MEM_WR {
        if h.addr / BAR_UNIT == 0 {
          interrupt := WriteBar0(h, dbuf, len);
        } else if h.addr / BAR_UNIT == 1 {
          WriteBar1(h, dbuf, len);
        }
      }
    }

    method WriteBar0(h: Header, dbuf: array<Byte>, len: nat) returns (interrupt: bool)
      requires Valid() && h.count <= len <= dbuf.Length && dbuf as object != bar0
      modifies bar0
      ensures (bar0[..], interrupt) == Bar0From(old(bar0[..]), h, dbuf[..len], 0)
    {
      ghost var data := dbuf[..len];
      var addr := h.addr % BAR_UNIT % 0x1_0000_0000;
      var i := 0;
      interrupt := false;
      hide WordAddress, WordAt;
      while i < h.count / 4
        invariant 0 <= i <= h.count / 4 && addr == WordAddress(h, i) && !interrupt
        invariant Bar0From(bar0[..], h, data, i) == Bar0From(old(bar0[..]), h, data, 0)
      {
        var word := WordAt(dbuf[..len], i);
        if addr == 0 && word == MAGIC {
          interrupt := true;
          break;
        }
        bar0[addr / 4 % BAR0_WORDS] := word;
        NextAddress(h, i);
        addr := (addr + 4) % 0x1_0000_0000;
        i := i + 1;
      }
    }

    method WriteBar1(h: Header, dbuf: array<Byte>, len: nat)
      requires Valid() && h.count <= len <= dbuf.Length && h.count <= MAX_COUNT && dbuf as object != mockReg
      modifies mockReg
      ensures mockReg[..] == Bar1Written(old(mockReg[..]), dbuf[..len][..h.count])
    {
      ghost var data, was := dbuf[..len][..h.count], mockReg[..];
      var i := 0;
      while i < h.count / 4
        invariant 0 <= i <= h.count / 4
        invariant forall k :: 0 <= k < BAR1_WORDS ==> mockReg[k] == if k < i then WordAt(data, k) else was[k]
      {
        assert dbuf[..len][4 * i..4 * i + 4] == data[4 * i..4 * i + 4];
        mockReg[i] := WordAt(dbuf[..len], i);
        i := i + 1;
      }
    }

    /** The word of a read that belongs into the buffer at `i`. */
    method ReadWord(h: Header, i: nat, addr: U32) returns (word: U32)
      requires Valid() && h.count <= MAX_COUNT && i < h.count / 4 && addr == WordAddress(h, i)
      ensures word == WordsRead(Contents(), h)[i]
    {
      if h.addr / BAR_UNIT == 0 {
        word := bar0[addr / 4 % BAR0_WORDS];
      } else {
        word := mockReg[i];
      }
    }

    /** doRead: whole words go into the buffer; `len` is what it sets dbuf.len to, 0 if it does not. */
    method DoRead(h: Header, dbuf: array<Byte>) returns (len: nat)
      requires Valid() && dbuf.Length == MAX_COUNT && (Fills(h) ==> h.count <= MAX_COUNT)
      requires dbuf as object != bar0 && dbuf as object != mockReg
      modifies dbuf
      ensures len == if Fills(h) then h.count else 0
      ensures Fills(h) ==>
                var n := h.count / 4;
                && dbuf[..4 * n] == BytesOf(WordsRead(Contents(), h))
                && dbuf[4 * n..] == old(dbuf[4 * n..])
    {
      len := 0;
      if h.kind == MEM_RD && h.addr / BAR_UNIT <= 1 {
        ghost var words := WordsRead(Contents(), h);
        var addr, i := h.addr % BAR_UNIT % 0x1_0000_0000, 0;
        assert addr == WordAddress(h, 0);
        hide WordAddress, WordsRead, Le, BytesOf;
        while i < h.count / 4
          invariant 0 <= i <= h.count / 4 && addr == WordAddress(h, i)
          invariant dbuf[..4 * i] == BytesOf(words[..i]) && dbuf[4 * i..] == old(dbuf[4 * i..])
        {
          var word := ReadWord(h, i, addr);
          PutWord(dbuf, i, word);
          assert words[..i + 1] == words[..i] + [word];
          BytesOfSnoc(words[..i], word);
          NextAddress(h, i);
          addr := (addr + 4) % 0x1_0000_0000;
          i := i + 1;
        }
        assert words[..i] == words;
        len := h.count;
      }
    }

    method PutWord(dbuf: array<Byte>, i: nat, word: U32)
      requires 4 * i + 4 <= dbuf.Length
      modifies dbuf
      ensures dbuf[..4 * i + 4] == old(dbuf[..4 * i]) + Le(word, 4)
      ensures dbuf[4 * i + 4..] == old(dbuf[4 * i + 4..])
    {
      var bytes := Le(word, 4);
      forall k | 0 <= k < 4 {
        dbuf[4 * i + k] := bytes[k];
      }
      assert dbuf[4 * i..4 * i + 4] == bytes;
      assert dbuf[..4 * i + 4] == dbuf[..4 * i] + dbuf[4 * i..4 * i + 4];
    }
  }
}
