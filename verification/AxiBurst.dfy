/** Which bytes and words a burst touches, stated without the address register, and the rule of
    section A3.4.1 of ARM IHI 0022E that the register implements. */
module AxiBurst {
  import opened PowersOfTwo
  import opened AxiRam

  /** An accepted address beat: AW and AR have the same shape. `size` is as the master drove it. */
  datatype Request = Request(id: Id, addr: nat, len: Bits8, size: Bits3, burst: Bits2)

  predicate RequestsFit(c: Config, qs: seq<Request>) {
    forall k :: 0 <= k < |qs| ==> qs[k].addr < AddrSpace(c)
  }

  /** The beats a sequence of requests asks for in total. */
  function TotalBeats(qs: seq<Request>): nat {
    if qs == [] then 0 else TotalBeats(qs[..|qs| - 1]) + qs[|qs| - 1].len + 1
  }

  /** The byte address of beat `k` (from 0), in closed form. */
  function BeatAddr(c: Config, q: Request, k: nat): (a: nat)
    requires q.addr < AddrSpace(c)
    ensures a < AddrSpace(c)
  {
    if q.burst != 0 then Moved(q.addr, k, Pow2(ClampSize(c, q.size)), AddrSpace(c)) else q.addr
  }

  function BeatWord(c: Config, q: Request, k: nat): (w: nat)
    requires Parameters(c) && q.addr < AddrSpace(c)
    ensures w < Depth(c)
  {
    WordIndex(c, BeatAddr(c, q, k))
  }

  lemma FirstBeat(c: Config, q: Request)
    requires q.addr < AddrSpace(c)
    ensures BeatAddr(c, q, 0) == q.addr
  {
    DivModUnique(q.addr, 0, AddrSpace(c), q.addr);
  }

  lemma NextBeat(c: Config, q: Request, k: nat)
    requires q.addr < AddrSpace(c)
    ensures Advance(c, BeatAddr(c, q, k), ClampSize(c, q.size), q.burst) == BeatAddr(c, q, k + 1)
  {
    hide Pow2, ClampSize, Moved;
    MovedOnce(q.addr, k, Pow2(ClampSize(c, q.size)), AddrSpace(c));
  }

  /** Aligned_Address of section A3.4.1. */
  function AlignedAddress(start: nat, bytes: nat): (a: nat)
    requires bytes > 0
    ensures a <= start && a % bytes == 0
  {
    DivModUnique(start - start % bytes, start / bytes, bytes, 0);
    start - start % bytes
  }

  /** Address_N of section A3.4.1 for an incrementing burst, N counted from 0: the start address
      for the first beat, multiples of the transfer size above the aligned address after it. */
  function SpecAddress(start: nat, bytes: nat, n: nat): nat
    requires bytes > 0
  {
    if n == 0 then start else AlignedAddress(start, bytes) + n * bytes
  }

  /** A FIXED burst (type 0) stays at its first word; every other type is taken for an incrementing one. */
  lemma BurstTypes(c: Config, q: Request, n: nat)
    requires Parameters(c) && q.addr < AddrSpace(c)
    ensures q.burst == 0 ==> BeatAddr(c, q, n) == q.addr && BeatWord(c, q, n) == q.addr / Lanes(c)
    ensures 1 <= q.burst <= 3 ==>
              BeatAddr(c, q, n) == (q.addr + n * Pow2(ClampSize(c, q.size))) % AddrSpace(c)
  {
  }

  lemma SameBlock(start: nat, bytes: nat, n: nat, per: nat)
    requires bytes > 0 && per > 0
    ensures bytes * per > 0
    ensures (start + n * bytes) / (bytes * per) == SpecAddress(start, bytes, n) / (bytes * per)
  {
    var aligned := AlignedAddress(start, bytes);
    DivModProduct(start + n * bytes, bytes, per);
    DivModProduct(aligned + n * bytes, bytes, per);
    DivAddMultiple(start, n, bytes);
    DivAddMultiple(aligned, n, bytes);
    DivModUnique(aligned, start / bytes, bytes, 0);
  }

  /** The register adds the transfer size to the unaligned start address. For every start address,
      beat and driven size the word selected is that of the aligned address the standard gives,
      modulo the address space; sizes the standard allows on this bus are not altered by the clamp. */
  lemma IncrementSelectsSpecWord(c: Config, q: Request, n: nat)
    requires Parameters(c) && q.addr < AddrSpace(c) && q.burst != 0
    ensures BeatWord(c, q, n) ==
            WordIndex(c, SpecAddress(q.addr, Pow2(ClampSize(c, q.size)), n) % AddrSpace(c))
    ensures q.size <= c.strbLog <= 7 ==> ClampSize(c, q.size) == q.size
  {
    var s := ClampSize(c, q.size);
    var per := Pow2(c.strbLog - s);
    Pow2Add(s, c.strbLog - s);
    Pow2Add(c.strbLog, c.addrWidth - c.strbLog);
    SameBlock(q.addr, Pow2(s), n, per);
    DivModProduct(q.addr + n * Pow2(s), Lanes(c), Depth(c));
    DivModProduct(SpecAddress(q.addr, Pow2(s), n), Lanes(c), Depth(c));
  }
}
