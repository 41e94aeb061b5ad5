/** The end point word by word and byte by byte (src/sim/pcie_cosim.cpp): what each register holds after any
    accesses, and what a read of it sends back, with the byte order, the addressing and the interrupt word
    written out. */
module DeviceWords {
  import opened Protocol
  import opened Device
  import PowersOfTwo

  function Sum4(b0: nat, b1: nat, b2: nat, b3: nat): nat {
    b0 + 0x100 * b1 + 0x1_0000 * b2 + 0x100_0000 * b3
  }

  /** Word `j` of some bytes, least significant byte first. */
  function Spelled(b: seq<Byte>, j: nat): nat
    requires 4 * j + 4 <= |b|
  {
    Sum4(b[4 * j], b[4 * j + 1], b[4 * j + 2], b[4 * j + 3])
  }

  lemma {:induction false} FourBytes(s: seq<Byte>)
    requires |s| == 4
    ensures FromLe(s) == Sum4(s[0], s[1], s[2], s[3])
  {
    assert s[1..][1..] == s[2..] && s[2..][1..] == s[3..] && s[3..][1..] == [];
    var b3: nat := s[3];
    assert FromLe(s[3..]) == b3;
    assert FromLe(s[2..]) == s[2] as nat + 256 * b3;
  }

  lemma WordIsSpelled(b: seq<Byte>, j: nat)
    requires 4 * j + 4 <= |b|
    ensures WordAt(b, j) == Spelled(b, j)
  {
    FieldSizes();
    FourBytes(b[4 * j..4 * j + 4]);
  }

  /** The four bytes at offset 0 of BAR0 that are taken for a request to interrupt. */
  predicate IsInterruptWrite(a: Access)
    requires AccessOk(a)
  {
    && a.write && a.bar == 0 && a.offset == 0
    && a.data[0] == 0xBE && a.data[1] == 0xBA && a.data[2] == 0xDC && a.data[3] == 0xAC
  }

  lemma InterruptWord(b0: Byte, b1: Byte, b2: Byte, b3: Byte)
    ensures Sum4(b0, b1, b2, b3) == 0xACDC_BABE
            <==> b0 == 0xBE && b1 == 0xBA && b2 == 0xDC && b3 == 0xAC
  {
  }

  /** An access raises the interrupt exactly when it is that write. */
  lemma InterruptsExactly(a: Access)
    requires AccessOk(a)
    ensures RaisesInterrupt(a) <==> IsInterruptWrite(a)
  {
    if a.write {
      WordIsSpelled(a.data, 0);
      InterruptWord(a.data[0], a.data[1], a.data[2], a.data[3]);
    }
  }

  // ---- What a register holds ----

  /** Word `j` of the access goes into register `s` of its BAR: in BAR0 the one its address names, bits
      10..2; in BAR1 the j-th, whatever the offset. */
  predicate Reaches(a: Access, bar: nat, s: nat, j: nat)
    requires AccessOk(a)
  {
    && a.write && a.bar == bar && 4 * j < a.count && !IsInterruptWrite(a)
    && s == if bar == 0 then (a.offset + 4 * j) / 4 % 0x200 else j
  }

  function Register(d: Regs, bar: nat, s: nat): U32
    requires RegsOk(d) && (if bar == 0 then s < 0x200 else s < 0x400)
  {
    if bar == 0 then d.bar0[s] else d.bar1[s]
  }

  lemma SlotOf(a: Access, j: nat)
    requires AccessOk(a)
    ensures Slot(a.offset, j) == (a.offset + 4 * j) / 4 % 0x200
  {
    assert (a.offset + 4 * j) / 4 == a.offset / 4 + j;
  }

  lemma {:induction false} Bar0Reached(d: Regs, a: Access, s: nat, j: nat)
    requires RegsOk(d) && AccessOk(a) && s < 0x200 && Reaches(a, 0, s, j)
    ensures After(d, a).bar0[s] == Spelled(a.data, j)
  {
    InterruptsExactly(a);
    hide RaisesInterrupt, IsInterruptWrite, Bar0Written, WordAt, Spelled, Slot;
    SlotOf(a, j);
    Bar0WrittenAt(d.bar0, a.offset, a.data, a.count / 4, j);
    WordIsSpelled(a.data, j);
  }

  lemma {:induction false} Bar0NotReached(d: Regs, a: Access, s: nat)
    requires RegsOk(d) && AccessOk(a) && s < 0x200 && forall j: nat :: !Reaches(a, 0, s, j)
    ensures After(d, a).bar0[s] == d.bar0[s]
  {
    InterruptsExactly(a);
    hide RaisesInterrupt, IsInterruptWrite, Bar0Written, WordAt, Spelled, Slot;
    if a.write && a.bar == 0 && !IsInterruptWrite(a) {
      forall k: nat | k < a.count / 4 ensures Slot(a.offset, k) != s {
        SlotOf(a, k);
        assert !Reaches(a, 0, s, k);
      }
      Bar0WrittenElsewhere(d.bar0, a.offset, a.data, a.count / 4, s);
    }
  }

  lemma {:induction false} Bar0Word(d: Regs, a: Access, s: nat)
    requires RegsOk(d) && AccessOk(a) && s < 0x200
    ensures forall j: nat :: Reaches(a, 0, s, j) ==> After(d, a).bar0[s] == Spelled(a.data, j)
    ensures (forall j: nat :: !Reaches(a, 0, s, j)) ==> After(d, a).bar0[s] == d.bar0[s]
  {
    hide After, Spelled;
    forall j: nat | Reaches(a, 0, s, j) ensures After(d, a).bar0[s] == Spelled(a.data, j) {
      Bar0Reached(d, a, s, j);
    }
    if forall j: nat :: !Reaches(a, 0, s, j) {
      Bar0NotReached(d, a, s);
    }
  }

  lemma {:induction false} Bar1Word(d: Regs, a: Access, s: nat)
    requires RegsOk(d) && AccessOk(a) && s < 0x400
    ensures forall j: nat :: Reaches(a, 1, s, j) ==> After(d, a).bar1[s] == Spelled(a.data, j)
    ensures (forall j: nat :: !Reaches(a, 1, s, j)) ==> After(d, a).bar1[s] == d.bar1[s]
  {
    if a.write && a.bar == 1 && 4 * s < a.count {
      WordIsSpelled(a.data, s);
      assert Reaches(a, 1, s, s);
    }
  }

  /** One access: a register holds the word that reached it, or what it held. */
  lemma {:induction false} AfterOne(d: Regs, a: Access, bar: nat, s: nat)
    requires RegsOk(d) && AccessOk(a) && bar <= 1 && (if bar == 0 then s < 0x200 else s < 0x400)
    ensures forall j: nat :: Reaches(a, bar, s, j) ==> Register(After(d, a), bar, s) == Spelled(a.data, j)
    ensures (forall j: nat :: !Reaches(a, bar, s, j)) ==> Register(After(d, a), bar, s) == Register(d, bar, s)
  {
    hide After, Reaches;
    if bar == 0 {
      Bar0Word(d, a, s);
    } else {
      Bar1Word(d, a, s);
    }
  }

  ghost predicate NeverReached(log: seq<Access>, from: nat, bar: nat, s: nat)
    requires AllOk(log)
  {
    forall i: nat, j: nat :: from <= i < |log| ==> !Reaches(log[i], bar, s, j)
  }

  lemma {:induction false} NeverReachedMore(log: seq<Access>, from: nat, bar: nat, s: nat)
    requires AllOk(log) && from < |log|
    ensures var n := |log| - 1;
            NeverReached(log, from, bar, s) <==>
              NeverReached(log[..n], from, bar, s) && forall j: nat :: !Reaches(log[n], bar, s, j)
  {
    hide Reaches;
    var n := |log| - 1;
    assert forall i :: 0 <= i < n ==> log[..n][i] == log[i];
    if NeverReached(log, from, bar, s) {
      forall i: nat, j: nat | from <= i < n ensures !Reaches(log[..n][i], bar, s, j) {
        assert !Reaches(log[i], bar, s, j);
      }
    }
  }

  /** Word `j` of access `i` is the last that reached the register. */
  ghost predicate LastReach(log: seq<Access>, bar: nat, s: nat, i: nat, j: nat)
    requires AllOk(log)
  {
    i < |log| && Reaches(log[i], bar, s, j) && NeverReached(log, i + 1, bar, s)
  }

  /** After any accesses at all a register holds the word that reached it last, or its first value if none
      did. Nothing else changes it: not a write elsewhere in its BAR, nor one to the other BAR, nor a read,
      nor the interrupt write. */
  lemma {:induction false} RegisterHoldsLastWord(d: Regs, log: seq<Access>, bar: nat, s: nat)
    returns (i: int, j: nat)
    requires RegsOk(d) && AllOk(log) && bar <= 1 && (if bar == 0 then s < 0x200 else s < 0x400)
    ensures if i < 0 then NeverReached(log, 0, bar, s) && Register(AfterAll(d, log), bar, s) == Register(d, bar, s)
            else LastReach(log, bar, s, i, j) && Register(AfterAll(d, log), bar, s) == Spelled(log[i].data, j)
  {
    i, j := -1, 0;
    if log != [] {
      var n := |log| - 1;
      AfterOne(AfterAll(d, log[..n]), log[n], bar, s);
      hide Reaches, After, Register, Spelled, NeverReached;
      if k: nat :| Reaches(log[n], bar, s, k) {
        i, j := n, k;
        NothingAfter(log, bar, s);
      } else {
        i, j := RegisterHoldsLastWord(d, log[..n], bar, s);
        if i < 0 {
          NeverReachedMore(log, 0, bar, s);
        } else if i + 1 < |log| {
          NeverReachedMore(log, i + 1, bar, s);
        }
      }
    }
  }

  lemma NothingAfter(log: seq<Access>, bar: nat, s: nat)
    requires AllOk(log)
    ensures NeverReached(log, |log|, bar, s)
  {
  }

  // ---- What a read sends back ----

  lemma Quotients(w: U32)
    ensures w / 0x100 / 0x100 == w / 0x1_0000 && w / 0x100 / 0x100 / 0x100 == w / 0x100_0000 < 0x100
  {
    var x1, x2, x3 := w / 0x100, w / 0x100 / 0x100, w / 0x100 / 0x100 / 0x100;
    var r0, r1, r2 := w - 0x100 * x1, x1 - 0x100 * x2, x2 - 0x100 * x3;
    PowersOfTwo.DivModUnique(w, x2, 0x1_0000, 0x100 * r1 + r0);
    PowersOfTwo.DivModUnique(w, x3, 0x100_0000, 0x1_0000 * r2 + 0x100 * r1 + r0);
  }

  lemma {:induction false} WordBytes(w: U32)
    ensures Le(w, 4) == [w % 0x100, w / 0x100 % 0x100, w / 0x1_0000 % 0x100, w / 0x100_0000]
  {
    Quotients(w);
    var x1, x2, x3 := w / 0x100, w / 0x100 / 0x100, w / 0x100 / 0x100 / 0x100;
    assert Le(x3, 1) == [x3 % 0x100] + Le(x3 / 0x100, 0) == [x3];
    assert Le(x2, 2) == [x2 % 0x100] + Le(x3, 1);
    assert Le(x1, 3) == [x1 % 0x100] + Le(x2, 2);
    assert Le(w, 4) == [w % 0x100] + Le(x1, 3);
  }

  lemma Behind4(first: seq<Byte>, rest: seq<Byte>, at: nat)
    requires |first| == 4 && at + 4 <= |rest|
    ensures (first + rest)[at + 4..at + 8] == rest[at..at + 4]
  {
  }

  lemma {:induction false} BytesOfAt(ws: seq<U32>, k: nat)
    requires k < |ws|
    ensures BytesOf(ws)[4 * k..4 * k + 4] == Le(ws[k], 4)
  {
    var first, rest := Le(ws[0], 4), BytesOf(ws[1..]);
    assert BytesOf(ws) == first + rest;
    hide Le, BytesOf;
    if k > 0 {
      BytesOfAt(ws[1..], k - 1);
      Behind4(first, rest, 4 * (k - 1));
    }
  }

  /** The four bytes of a word, least significant first. */
  function Little(w: U32): (s: seq<Byte>)
    ensures |s| == 4
  {
    [w % 0x100, w / 0x100 % 0x100, w / 0x1_0000 % 0x100, w / 0x100_0000]
  }

  /** The register word `k` of an access means. */
  function Named(a: Access, k: nat): (s: nat)
    requires AccessOk(a) && 4 * k < a.count
    ensures if a.bar == 0 then s < 0x200 else s < 0x400
  {
    if a.bar == 0 then (a.offset + 4 * k) / 4 % 0x200 else k
  }

  /** Word `k` of a read is that register's. */
  lemma ReadSendsRegister(d: Regs, a: Access, k: nat)
    requires RegsOk(d) && AccessOk(a) && 4 * k < a.count
    ensures |BytesOf(ReadWords(d, a))| == a.count
    ensures BytesOf(ReadWords(d, a))[4 * k..4 * k + 4] == Little(Register(d, a.bar, Named(a, k)))
  {
    SlotOf(a, k);
    BytesOfAt(ReadWords(d, a), k);
    WordBytes(ReadWords(d, a)[k]);
  }

  lemma SumBytes(b0: Byte, b1: Byte, b2: Byte, b3: Byte)
    ensures var w := Sum4(b0, b1, b2, b3);
            w % 0x100 == b0 && w / 0x100 % 0x100 == b1 && w / 0x1_0000 % 0x100 == b2 && w / 0x100_0000 == b3
  {
    var w: nat, c1: nat, c2: nat, c3: nat := Sum4(b0, b1, b2, b3), b1, b2, b3;
    PowersOfTwo.DivModUnique(w, c1 + 0x100 * c2 + 0x1_0000 * c3, 0x100, b0);
    PowersOfTwo.DivModUnique(w, c2 + 0x100 * c3, 0x1_0000, b0 as nat + 0x100 * c1);
    PowersOfTwo.DivModUnique(w, c3, 0x100_0000, b0 as nat + 0x100 * c1 + 0x1_0000 * c2);
    PowersOfTwo.DivModUnique(c1 + 0x100 * c2 + 0x1_0000 * c3, c2 + 0x100 * c3, 0x100, c1);
    PowersOfTwo.DivModUnique(c2 + 0x100 * c3, c3, 0x100, c2);
  }

  /** Spelling a word and taking its bytes are inverse. */
  lemma SpelledBytes(b: seq<Byte>, j: nat)
    requires 4 * j + 4 <= |b|
    ensures Spelled(b, j) < 0x1_0000_0000 && Little(Spelled(b, j)) == b[4 * j..4 * j + 4]
  {
    SumBytes(b[4 * j], b[4 * j + 1], b[4 * j + 2], b[4 * j + 3]);
    hide Sum4;
  }

  lemma ReachedHasWord(log: seq<Access>, bar: nat, s: nat, i: nat, j: nat)
    requires AllOk(log) && LastReach(log, bar, s, i, j)
    ensures i < |log| && 4 * j + 4 <= |log[i].data|
  {
  }

  /** So the bytes of a read are bytes that were written: for any accesses, word `k` of the answer to read
      `r` is the four bytes of the last word that reached its register before it, or what the register held
      at first. */
  lemma {:induction false} ReadReturnsBytesWritten(d: Regs, log: seq<Access>, r: nat, k: nat)
    returns (i: int, j: nat)
    requires RegsOk(d) && AllOk(log) && r < |log| && 4 * k < log[r].count
    ensures var a, answer := log[r], Response(d, log, r);
            && |answer| == a.count
            && if i < 0 then
                 && NeverReached(log[..r], 0, a.bar, Named(a, k))
                 && answer[4 * k..4 * k + 4] == Little(Register(d, a.bar, Named(a, k)))
               else
                 && LastReach(log[..r], a.bar, Named(a, k), i, j) && i < r && 4 * j + 4 <= |log[i].data|
                 && answer[4 * k..4 * k + 4] == log[i].data[4 * j..4 * j + 4]
  {
    hide AfterAll, BytesOf, ReadWords, LastReach, NeverReached, Spelled, Little, Named, Register, RegsOk;
    var a := log[r];
    i, j := RegisterHoldsLastWord(d, log[..r], a.bar, Named(a, k));
    ReadSendsRegister(AfterAll(d, log[..r]), a, k);
    if i >= 0 {
      ReachedHasWord(log[..r], a.bar, Named(a, k), i, j);
      SpelledBytes(log[i].data, j);
    }
  }

  // ---- Any packet at all ----

  /** The 32-bit address the handlers count up, at word `k`. */
  function AddressAt(h: Header, k: nat): nat {
    (h.addr % 0x100_0000_0000_0000 + 4 * k) % 0x1_0000_0000
  }

  /** Word `k` is the one that is taken for a request to interrupt. */
  predicate Interrupts(h: Header, data: seq<Byte>, k: nat)
    requires 4 * k + 4 <= |data|
  {
    AddressAt(h, k) == 0 && data[4 * k..4 * k + 4] == [0xBE, 0xBA, 0xDC, 0xAC]
  }

  lemma InterruptsIff(h: Header, data: seq<Byte>, k: nat)
    requires 4 * k + 4 <= |data|
    ensures AsksForInterrupt(h, data, k) <==> Interrupts(h, data, k)
  {
    WordIsSpelled(data, k);
    InterruptWord(data[4 * k], data[4 * k + 1], data[4 * k + 2], data[4 * k + 3]);
    var w := data[4 * k..4 * k + 4];
    assert w == [data[4 * k], data[4 * k + 1], data[4 * k + 2], data[4 * k + 3]];
  }

  /** How many words of a BAR0 write are stored: all, or those before the first that asks for an interrupt. */
  function Stored(h: Header, data: seq<Byte>, from: nat): (n: nat)
    requires h.count <= |data| && from <= h.count / 4
    ensures from <= n <= h.count / 4
    ensures forall k: nat :: from <= k < n ==> !Interrupts(h, data, k)
    ensures n < h.count / 4 ==> Interrupts(h, data, n)
    decreases h.count / 4 - from
  {
    if from == h.count / 4 || Interrupts(h, data, from) then from else Stored(h, data, from + 1)
  }

  lemma AddressAtIs(h: Header, k: nat)
    ensures AddressAt(h, k) == (h.addr % 0x100_0000_0000_0000 + 4 * k) % 0x1_0000_0000
  {
  }

  lemma RegistersDiffer(h: Header, j: nat, k: nat)
    requires j < k < j + 0x200
    ensures AddressAt(h, j) / 4 % 0x200 != AddressAt(h, k) / 4 % 0x200
  {
    hide *;
    AddressAtIs(h, j);
    AddressAtIs(h, k);
    var a := h.addr % 0x100_0000_0000_0000;
    WordOfSum(a, j);
    WordOfSum(a, k);
    DifferByFew(a / 4 + j, a / 4 + k);
  }

  lemma DifferByFew(p: nat, q: nat)
    requires p < q < p + 0x200
    ensures p % 0x200 != q % 0x200
  {
    assert p == 0x200 * (p / 0x200) + p % 0x200 && q == 0x200 * (q / 0x200) + q % 0x200;
  }

  lemma WordOfSum(a: nat, k: nat)
    ensures (a + 4 * k) % 0x1_0000_0000 / 4 % 0x200 == (a / 4 + k) % 0x200
  {
    var x := a + 4 * k;
    var m, r := x / 0x1_0000_0000, x % 0x1_0000_0000;
    assert x == 0x1_0000_0000 * m + r && x / 4 == a / 4 + k;
    assert x / 4 == 0x4000_0000 * m + r / 4;
    PowersOfTwo.DivModUnique(x / 4, 0x20_0000 * m + r / 4 / 0x200, 0x200, r / 4 % 0x200);
  }

  lemma {:induction false} Bar0PacketWord(bar0: seq<U32>, h: Header, data: seq<Byte>, from: nat, s: nat)
    requires |bar0| == BAR0_WORDS && h.count <= |data| <= MAX_COUNT && from <= h.count / 4 && s < 0x200
    ensures var (r, interrupt) := Bar0From(bar0, h, data, from); var n := Stored(h, data, from);
            && |r| == 0x200 && (interrupt <==> n < h.count / 4)
            && (forall k: nat :: from <= k < n && s == AddressAt(h, k) / 4 % 0x200 ==> r[s] == Spelled(data, k))
            && ((forall k: nat :: from <= k < n ==> s != AddressAt(h, k) / 4 % 0x200) ==> r[s] == bar0[s])
    decreases h.count / 4 - from
  {
    if from < h.count / 4 {
      InterruptsIff(h, data, from);
      if !Interrupts(h, data, from) {
        WordIsSpelled(data, from);
        var slot := AddressAt(h, from) / 4 % 0x200;
        assert RamWord(WordAddress(h, from)) == slot;
        Bar0PacketWord(bar0[slot := WordAt(data, from)], h, data, from + 1, s);
        forall k: nat | from + 1 <= k < h.count / 4 ensures slot != AddressAt(h, k) / 4 % 0x200 {
          RegistersDiffer(h, from, k);
        }
        hide Bar0From, AddressAt, Interrupts, Spelled, WordAt;
        assert Bar0From(bar0, h, data, from) == Bar0From(bar0[slot := WordAt(data, from)], h, data, from + 1) by {
          Bar0FromNext(bar0, h, data, from);
        }
      }
    }
  }

  lemma {:induction false} Bar0FromNext(bar0: seq<U32>, h: Header, data: seq<Byte>, i: nat)
    requires |bar0| == BAR0_WORDS && h.count <= |data| && i < h.count / 4 && !AsksForInterrupt(h, data, i)
    ensures Bar0From(bar0, h, data, i) == Bar0From(bar0[RamWord(WordAddress(h, i)) := WordAt(data, i)], h, data, i + 1)
  {
  }

  /** The write handler on any packet received with its data, aligned or not and whatever it addresses: a
      memory write (type 5) to BAR0 stores the words before the first that asks for an interrupt, each in
      the register its address names, and raises the interrupt exactly if there is such a word; one to BAR1
      stores all its whole words from register 0 on; every other register, and every other packet, is left
      alone. */
  lemma {:induction false} AnyWrite(d: Regs, h: Header, data: seq<Byte>, bar: nat, s: nat)
    requires RegsOk(d) && h.count <= |data| <= MAX_COUNT
    requires bar <= 1 && (if bar == 0 then s < 0x200 else s < 0x400)
    ensures var e, to := Written(d, h, data), h.addr / 0x100_0000_0000_0000;
            && (e.interrupt <==> h.kind == 5 && to == 0 && Stored(h, data, 0) < h.count / 4)
            && (h.kind == 5 && to == 0 && bar == 0 ==>
                  && (forall k: nat :: k < Stored(h, data, 0) && s == AddressAt(h, k) / 4 % 0x200 ==>
                        e.regs.bar0[s] == Spelled(data, k))
                  && ((forall k: nat :: k < Stored(h, data, 0) ==> s != AddressAt(h, k) / 4 % 0x200) ==>
                        e.regs.bar0[s] == d.bar0[s]))
            && (h.kind == 5 && to == 1 && bar == 1 ==>
                  e.regs.bar1[s] == if 4 * s + 4 <= h.count then Spelled(data, s) else d.bar1[s])
            && (h.kind != 5 || to != bar ==> Register(e.regs, bar, s) == Register(d, bar, s))
  {
    if bar == 0 {
      Bar0PacketWord(d.bar0, h, data, 0, s);
    } else {
      Bar0PacketWord(d.bar0, h, data, 0, 0);
      if 4 * s + 4 <= h.count {
        WordIsSpelled(data[..h.count], s);
        hide Bar0From, AddressAt, Stored, WordAt;
        assert Spelled(data[..h.count], s) == Spelled(data, s);
      }
    }
    hide Bar0From, AddressAt, Stored, WordAt, Spelled;
  }

  /** And the read handler. */
  lemma {:induction false} AnyRead(d: Regs, h: Header, k: nat)
    requires RegsOk(d) && h.count <= MAX_COUNT && k < h.count / 4
    ensures Fills(h) <==> h.kind == 4 && h.addr < 2 * 0x100_0000_0000_0000
    ensures |BytesOf(WordsRead(d, h))| == h.count - h.count % 4
    ensures BytesOf(WordsRead(d, h))[4 * k..4 * k + 4] ==
            Little(if h.addr < 0x100_0000_0000_0000 then d.bar0[AddressAt(h, k) / 4 % 0x200] else d.bar1[k])
  {
    BytesOfAt(WordsRead(d, h), k);
    WordBytes(WordsRead(d, h)[k]);
  }
}
