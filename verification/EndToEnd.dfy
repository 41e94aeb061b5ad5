/** What callers of the bridge can rely on, over every run of the system in SoftTlp. As there, no lemma is
    left to automatic induction. */
module EndToEnd {
  import opened Protocol
  import opened Device
  import opened SoftTlp

  /** The read whose reply return `r` took: the oldest one not yet answered. */
  function Answered(issued: seq<Access>, r: Return): nat
    requires 0 <= r.k < |issued| && r.turn < |Reads(issued, r.k + 1)|
  {
    Reads(issued, r.k + 1)[r.turn]
  }

  lemma {:induction false} EveryReturnOk(d0: Regs, es: seq<Event>, c: Config, i: nat)
    requires RegsOk(d0) && Reaches(d0, es, c) && i < |c.h.ended|
    ensures AllOk(c.h.issued) && ReturnOk(d0, c.h.issued, c.h.ended[i])
  {
    RunsAreGood(d0, es, c);
  }

  /** What ReturnOk says, one reply at a time. */
  lemma ReturnSays(d0: Regs, issued: seq<Access>, r: Return)
    requires RegsOk(d0) && AllOk(issued) && ReturnOk(d0, issued, r)
    ensures 0 <= r.k < |issued| && !issued[r.k].write
    ensures r.timedOut ==> !r.ok
    ensures !r.timedOut ==>
              && r.turn < |Reads(issued, r.k + 1)|
              && var j := Answered(issued, r);
              && j <= r.k && r.data == Response(d0, issued, j) && |r.data| == issued[j].count
              && (r.ok <==> (r.k - j) % 256 == 0 && issued[j].count == issued[r.k].count)
  {
    hide AfterAll;
    if !r.timedOut {
      assert AccessOk(issued[Answered(issued, r)]);
    }
  }

  /** Every read call that ends either timed out, or took the reply to the oldest unanswered read. It
      then succeeds if and only if that read is a multiple of 256 requests back and of the same size,
      and what it returns is what a sequential device answers to that read, after all earlier
      requests: a posted write is never passed. */
  lemma {:induction false} ReadsTakeTheOldestAnswer(d0: Regs, es: seq<Event>, c: Config, i: nat)
    requires RegsOk(d0) && Reaches(d0, es, c) && i < |c.h.ended|
    ensures AllOk(c.h.issued)
    ensures var r, issued := c.h.ended[i], c.h.issued;
            && 0 <= r.k < |issued| && !issued[r.k].write
            && (r.timedOut ==> !r.ok)
            && (!r.timedOut ==>
                  && r.turn < |Reads(issued, r.k + 1)|
                  && var j := Answered(issued, r);
                  && j <= r.k && r.data == Response(d0, issued, j) && |r.data| == issued[j].count
                  && (r.ok <==> (r.k - j) % 256 == 0 && issued[j].count == issued[r.k].count))
  {
    EveryReturnOk(d0, es, c, i);
    ReturnSays(d0, c.h.issued, c.h.ended[i]);
  }

  lemma SmallMultiple(x: nat)
    requires x < 256
    ensures x % 256 == 0 <==> x == 0
  {
  }

  lemma FarMultiple(x: nat)
    requires x > 0 && x % 256 == 0
    ensures x >= 256
  {
  }

  lemma ReturnWithin256(d0: Regs, issued: seq<Access>, r: Return)
    requires RegsOk(d0) && AllOk(issued) && ReturnOk(d0, issued, r) && !r.timedOut
    requires r.k - Answered(issued, r) < 256
    ensures r.ok <==> Answered(issued, r) == r.k
    ensures r.ok ==> r.data == Response(d0, issued, r.k)
  {
    ReturnSays(d0, issued, r);
    SmallMultiple(r.k - Answered(issued, r));
  }

  /** As long as fewer than 256 requests were issued since the oldest unanswered read, a read that
      succeeds carries its own response, and it succeeds exactly when that oldest read is itself. */
  lemma {:induction false} OwnAnswerWithin256(d0: Regs, es: seq<Event>, c: Config, i: nat)
    requires RegsOk(d0) && Reaches(d0, es, c) && i < |c.h.ended| && !c.h.ended[i].timedOut
    requires var r := c.h.ended[i];
             0 <= r.k < |c.h.issued| && r.turn < |Reads(c.h.issued, r.k + 1)|
             && r.k - Answered(c.h.issued, r) < 256
    ensures AllOk(c.h.issued)
    ensures var r := c.h.ended[i];
            && (r.ok <==> Answered(c.h.issued, r) == r.k)
            && (r.ok ==> r.data == Response(d0, c.h.issued, r.k))
  {
    EveryReturnOk(d0, es, c, i);
    ReturnWithin256(d0, c.h.issued, c.h.ended[i]);
  }

  // ---- Timeouts ----

  /** How many of these calls timed out. */
  function TimedOut(ended: seq<Return>): nat {
    if ended == [] then 0
    else TimedOut(ended[..|ended| - 1]) + if ended[|ended| - 1].timedOut then 1 else 0
  }

  lemma {:induction false} TimedOutSnoc(ended: seq<Return>, r: Return)
    ensures TimedOut(ended + [r]) == TimedOut(ended) + if r.timedOut then 1 else 0
  {
    assert (ended + [r])[..|ended|] == ended;
  }

  lemma {:induction false} NoneTimedOut(ended: seq<Return>)
    ensures TimedOut(ended) == 0 <==> forall j :: 0 <= j < |ended| ==> !ended[j].timedOut
  {
    if ended != [] {
      NoneTimedOut(ended[..|ended| - 1]);
    }
  }

  /** Every read issued has been answered, has been given up, or is being waited for. */
  predicate Balanced(c: Config) {
    c.h.answered + TimedOut(c.h.ended) + (if c.w.waiting.Some? then 1 else 0) == |Reads(c.h.issued, |c.h.issued|)|
  }

  /** When call `i` ended, one reply stood before its own for each call that had timed out by then. */
  predicate Lags(issued: seq<Access>, ended: seq<Return>, i: nat)
    requires i < |ended|
  {
    var r := ended[i];
    0 <= r.k < |issued| && r.turn + TimedOut(ended[..i]) + 1 == |Reads(issued, r.k + 1)|
  }

  predicate AllLag(issued: seq<Access>, ended: seq<Return>) {
    forall i :: 0 <= i < |ended| ==> Lags(issued, ended, i)
  }

  lemma IssueKeepsLag(issued: seq<Access>, a: Access, ended: seq<Return>)
    requires AllLag(issued, ended)
    ensures AllLag(issued + [a], ended)
  {
    hide Reads, TimedOut;
    forall i | 0 <= i < |ended|
      ensures Lags(issued + [a], ended, i)
    {
      assert Lags(issued, ended, i);
      ReadsPrefix(issued, [a], ended[i].k + 1);
    }
  }

  lemma {:induction false} ReturnKeepsLag(issued: seq<Access>, ended: seq<Return>, r: Return)
    requires AllLag(issued, ended) && 0 <= r.k < |issued|
    requires r.turn + TimedOut(ended) + 1 == |Reads(issued, r.k + 1)|
    ensures AllLag(issued, ended + [r])
  {
    hide Reads, TimedOut;
    forall i | 0 <= i <= |ended|
      ensures Lags(issued, ended + [r], i)
    {
      assert (ended + [r])[..i] == ended[..i];
      if i < |ended| {
        assert Lags(issued, ended, i);
      } else {
        assert ended[..i] == ended;
      }
    }
  }

  lemma IssueBalances(b: Config, e: Event, c: Config)
    requires Moves(b, e, c) && e.Issue? && Balanced(b) && AllLag(b.h.issued, b.h.ended)
    ensures Balanced(c) && AllLag(c.h.issued, c.h.ended)
  {
    ReadsPrefix(b.h.issued, [e.a], |b.h.issued|);
    IssueKeepsLag(b.h.issued, e.a, b.h.ended);
  }

  lemma EndBalances(b: Config, c: Config, r: Return)
    requires Balanced(b) && AllLag(b.h.issued, b.h.ended) && b.w.waiting.Some? && c.w.waiting.None?
    requires c.h.issued == b.h.issued && c.h.ended == b.h.ended + [r]
    requires r.k == |b.h.issued| - 1 && r.turn == b.h.answered
    requires c.h.answered == b.h.answered + if r.timedOut then 0 else 1
    ensures Balanced(c) && AllLag(c.h.issued, c.h.ended)
  {
    TimedOutSnoc(b.h.ended, r);
    hide TimedOut;
    ReturnKeepsLag(b.h.issued, b.h.ended, r);
  }

  lemma MoveBalances(b: Config, e: Event, c: Config)
    requires Moves(b, e, c) && Balanced(b) && AllLag(b.h.issued, b.h.ended)
    ensures Balanced(c) && AllLag(c.h.issued, c.h.ended)
  {
    hide Reads, TimedOut, Lags;
    match e {
      case Issue(_, _) => IssueBalances(b, e, c);
      case Answer => EndBalances(b, c, TakenBy(b.h, Parse(ToBridge, b.w.toBridge).value.0, b.w.waiting.value));
      case GiveUp => EndBalances(b, c, Return(|b.h.issued| - 1, b.h.answered, true, false, []));
      case Serve(_, _) =>
      case Hear =>
    }
  }

  lemma {:induction false} RunsBalance(d0: Regs, es: seq<Event>, c: Config)
    requires Reaches(d0, es, c)
    ensures Balanced(c) && AllLag(c.h.issued, c.h.ended)
  {
    if es != [] {
      var n := |es| - 1;
      var b: Config :| Reaches(d0, es[..n], b) && Moves(b, es[n], c);
      RunsBalance(d0, es[..n], b);
      MoveBalances(b, es[n], c);
    }
  }

  /** A call takes its own reply exactly when that is the last one in line. */
  lemma OwnIsLast(issued: seq<Access>, r: Return)
    requires 0 <= r.k < |issued| && !issued[r.k].write && r.turn < |Reads(issued, r.k + 1)|
    ensures Answered(issued, r) == r.k <==> r.turn + 1 == |Reads(issued, r.k + 1)|
  {
  }

  lemma {:induction false} NoEarlierTimeout(d0: Regs, es: seq<Event>, c: Config, i: nat)
    requires Reaches(d0, es, c) && i < |c.h.ended|
    ensures var r := c.h.ended[i];
            && 0 <= r.k < |c.h.issued|
            && (r.turn + 1 == |Reads(c.h.issued, r.k + 1)| <==> forall j :: 0 <= j < i ==> !c.h.ended[j].timedOut)
  {
    RunsBalance(d0, es, c);
    hide Reads, TimedOut, Reaches;
    assert Lags(c.h.issued, c.h.ended, i);
    var before := c.h.ended[..i];
    NoneTimedOut(before);
    assert forall j :: 0 <= j < i ==> before[j] == c.h.ended[j];
  }

  predicate OwnAnswer(d0: Regs, issued: seq<Access>, r: Return)
    requires RegsOk(d0) && AllOk(issued)
  {
    0 <= r.k < |issued| && !r.timedOut && r.ok && r.data == Response(d0, issued, r.k)
  }

  lemma OwnOrOld(d0: Regs, issued: seq<Access>, r: Return)
    requires RegsOk(d0) && AllOk(issued) && ReturnOk(d0, issued, r) && !r.timedOut
    ensures if Answered(issued, r) == r.k then OwnAnswer(d0, issued, r)
            else r.ok ==> Answered(issued, r) + 256 <= r.k
  {
    ReturnSays(d0, issued, r);
    hide Reads, Response, Answered, ReturnOk, AllOk, RegsOk;
    var j := Answered(issued, r);
    if j == r.k {
      SmallMultiple(0);
    } else if r.ok {
      FarMultiple(r.k - j);
    }
  }

  /** Exactly when a read that gets a reply gets its own: when no read before it has timed out. Then it
      succeeds, with what the sequential device answers to it. After one timeout every reply taken is
      somebody else's, and a read that still succeeds does so with an answer 256 or more requests old. */
  lemma {:induction false} OwnReplyIffNoEarlierTimeout(d0: Regs, es: seq<Event>, c: Config, i: nat)
    requires RegsOk(d0) && Reaches(d0, es, c) && i < |c.h.ended| && !c.h.ended[i].timedOut
    ensures AllOk(c.h.issued)
    ensures var r, issued := c.h.ended[i], c.h.issued;
            && 0 <= r.k < |issued| && r.turn < |Reads(issued, r.k + 1)|
            && (Answered(issued, r) == r.k <==> forall j :: 0 <= j < i ==> !c.h.ended[j].timedOut)
            && (if Answered(issued, r) == r.k then OwnAnswer(d0, issued, r)
                else r.ok ==> Answered(issued, r) + 256 <= r.k)
  {
    EveryReturnOk(d0, es, c, i);
    NoEarlierTimeout(d0, es, c, i);
    hide Reads, Response, Reaches;
    ReturnSays(d0, c.h.issued, c.h.ended[i]);
    OwnIsLast(c.h.issued, c.h.ended[i]);
    OwnOrOld(d0, c.h.issued, c.h.ended[i]);
  }

  lemma {:induction false} TimeoutsAreGiveUps(d0: Regs, es: seq<Event>, c: Config)
    requires Reaches(d0, es, c) && GiveUp !in es
    ensures TimedOut(c.h.ended) == 0
  {
    if es != [] {
      var n := |es| - 1;
      var b: Config :| Reaches(d0, es[..n], b) && Moves(b, es[n], c);
      TimeoutsAreGiveUps(d0, es[..n], b);
      if es[n].Answer? {
        TimedOutSnoc(b.h.ended, TakenBy(b.h, Parse(ToBridge, b.w.toBridge).value.0, b.w.waiting.value));
      }
    }
  }

  /** In a run in which no read times out, every read call that ends succeeds, and returns what the
      sequential device answers to it after all the requests issued before it; and every read but
      the one being waited for has ended so. */
  lemma {:induction false} WithoutTimeoutsAllReadsAreExact(d0: Regs, es: seq<Event>, c: Config)
    requires RegsOk(d0) && Reaches(d0, es, c) && GiveUp !in es
    ensures AllOk(c.h.issued)
    ensures forall i :: 0 <= i < |c.h.ended| ==> OwnAnswer(d0, c.h.issued, c.h.ended[i])
    ensures c.h.answered + (if c.w.waiting.Some? then 1 else 0) == |Reads(c.h.issued, |c.h.issued|)|
  {
    IssuedOk(d0, es, c);
    RunsBalance(d0, es, c);
    TimeoutsAreGiveUps(d0, es, c);
    NoneTimedOut(c.h.ended);
    hide Reads, TimedOut, Response, Reaches;
    forall i | 0 <= i < |c.h.ended|
      ensures OwnAnswer(d0, c.h.issued, c.h.ended[i])
    {
      OwnReplyIffNoEarlierTimeout(d0, es, c, i);
    }
  }

  lemma {:induction false} IssuedOk(d0: Regs, es: seq<Event>, c: Config)
    requires RegsOk(d0) && Reaches(d0, es, c)
    ensures AllOk(c.h.issued)
  {
    RunsAreGood(d0, es, c);
  }

  // ---- Order of answers ----

  /** The answers taken, in the order they were taken. */
  function Turns(ended: seq<Return>): seq<nat> {
    if ended == [] then []
    else
      var r := ended[|ended| - 1];
      Turns(ended[..|ended| - 1]) + (if r.timedOut then [] else [r.turn])
  }

  lemma {:induction false} TurnsSnoc(ended: seq<Return>, r: Return)
    ensures Turns(ended + [r]) == Turns(ended) + (if r.timedOut then [] else [r.turn])
  {
    assert (ended + [r])[..|ended|] == ended;
  }

  lemma CountOn(n: nat)
    ensures seq(n + 1, i => i) == seq(n, i => i) + [n]
  {
  }

  lemma MoveTakesNextTurn(b: Config, e: Event, c: Config)
    requires Moves(b, e, c) && Turns(b.h.ended) == seq(b.h.answered, i => i)
    ensures Turns(c.h.ended) == seq(c.h.answered, i => i)
  {
    CountOn(b.h.answered);
    hide Turns, Parse;
    match e {
      case Issue(_, _) =>
      case Serve(_, _) =>
      case Hear =>
      case GiveUp => TurnsSnoc(b.h.ended, Return(|b.h.issued| - 1, b.h.answered, true, false, []));
      case Answer => TurnsSnoc(b.h.ended, TakenBy(b.h, Parse(ToBridge, b.w.toBridge).value.0, b.w.waiting.value));
    }
  }

  /** Timeouts or not, replies are taken one by one in the order their reads were issued. */
  lemma {:induction false} AnswersComeInIssueOrder(d0: Regs, es: seq<Event>, c: Config)
    requires Reaches(d0, es, c)
    ensures Turns(c.h.ended) == seq(c.h.answered, i => i)
  {
    if es == [] {
      assert seq(0, i => i) == [];
    } else {
      var n := |es| - 1;
      var b: Config :| Reaches(d0, es[..n], b) && Moves(b, es[n], c);
      AnswersComeInIssueOrder(d0, es[..n], b);
      MoveTakesNextTurn(b, es[n], c);
    }
  }
  lemma {:induction false} TurnsWithoutTimeouts(ended: seq<Return>)
    requires TimedOut(ended) == 0
    ensures |Turns(ended)| == |ended|
    ensures forall i :: 0 <= i < |ended| ==> !ended[i].timedOut && Turns(ended)[i] == ended[i].turn
  {
    if ended != [] {
      TurnsWithoutTimeouts(ended[..|ended| - 1]);
    }
  }

  /** Without timeouts the i-th read that returns is the i-th read issued. */
  lemma {:induction false} ReadsEndInOrder(d0: Regs, es: seq<Event>, c: Config, i: nat)
    requires RegsOk(d0) && Reaches(d0, es, c) && GiveUp !in es && i < |c.h.ended|
    ensures var ks := Reads(c.h.issued, |c.h.issued|); i < |ks| && c.h.ended[i].k == ks[i]
  {
    TimeoutsAreGiveUps(d0, es, c);
    AnswersComeInIssueOrder(d0, es, c);
    TurnsWithoutTimeouts(c.h.ended);
    assert c.h.ended[i].turn == i;
    OwnReplyIffNoEarlierTimeout(d0, es, c, i);
    hide Turns, Reaches, OwnAnswer, Reads;
    var issued, r := c.h.issued, c.h.ended[i];
    ReadsGrow(issued, r.k + 1, |issued|);
  }


  // ---- Interrupts ----

  /** Interrupt calls made and interrupt messages still in the async stream add up to the interrupt
      requests the simulator has processed; the registers, the other effect of serving, are exactly
      those of the sequential device. */
  lemma {:induction false} InterruptsAreConserved(d0: Regs, es: seq<Event>, c: Config)
    requires RegsOk(d0) && Reaches(d0, es, c)
    ensures AllOk(c.h.issued) && c.h.served <= |c.h.issued| && c.h.heard <= |c.h.messages|
    ensures var inFlight := c.h.messages[c.h.heard..];
            && c.w.async == EncodeAll(inFlight)
            && |c.w.vectors| + |inFlight| == Interrupts(c.h.issued[..c.h.served])
            && (forall i :: 0 <= i < |c.w.vectors| ==> c.w.vectors[i] == 0)
    ensures c.w.dev == AfterAll(d0, c.h.issued[..c.h.served])
  {
    RunsAreGood(d0, es, c);
  }

  // ---- Progress ----

  lemma {:induction false} ServeEnabled(d0: Regs, es: seq<Event>, c: Config, e: Event)
    requires RegsOk(d0) && Reaches(d0, es, c) && c.w.toSim != [] && e.Serve?
    ensures Enabled(c.w, e)
  {
    RunsAreGood(d0, es, c);
    NextRequest(c.w, c.h);
    assert AccessOk(c.h.issued[c.h.served]);
  }

  /** Whatever is in a stream can be taken off it: no side ever meets bytes it cannot digest. */
  lemma {:induction false} StreamsStayReadable(d0: Regs, es: seq<Event>, c: Config, pad: Byte)
    requires RegsOk(d0) && Reaches(d0, es, c)
    ensures c.w.toSim != [] ==> Enabled(c.w, Serve(pad, pad))
    ensures c.w.waiting.Some? && c.w.toBridge != [] ==> Enabled(c.w, Answer)
    ensures c.w.async != [] ==> Enabled(c.w, Hear)
  {
    RunsAreGood(d0, es, c);
    if c.w.toSim != [] {
      ServeEnabled(d0, es, c, Serve(pad, pad));
    }
    if c.w.toBridge != [] {
      NextReply(d0, c);
    }
    if c.w.async != [] {
      NextMessage(c.h.messages, c.h.heard);
    }
  }

  /** A waiting read is never stuck: its answer is there, or the simulator has a request to serve, and
      serving leaves fewer. So it is answered after finitely many moves of the simulator. */
  lemma {:induction false} WaitingIsNeverStuck(d0: Regs, es: seq<Event>, b: Config, pad: Byte)
    requires RegsOk(d0) && Reaches(d0, es, b) && b.w.waiting.Some? && b.w.toBridge == []
    ensures Enabled(b.w, Serve(pad, pad))
    ensures var c := Config(Step(b.w, Serve(pad, pad)), Record(b.h, b.w, Serve(pad, pad)));
            && c.w.waiting == b.w.waiting
            && b.h.served < c.h.served <= |c.h.issued| == |b.h.issued|
  {
    RunsAreGood(d0, es, b);
    var h := b.h;
    if h.served == |h.issued| {
      StreamOfSome(h.replies, h.answered);
    }
    StreamOfSome(h.sent, h.served);
    StreamsStayReadable(d0, es, b, pad);
  }

  lemma StreamOfSome(ps: seq<Packet>, n: nat)
    requires n <= |ps|
    ensures n < |ps| ==> EncodeAll(ps[n..]) != []
  {
  }

  // ---- The eight-bit tag ----

  const STALE_READ := Access(false, 1, 0, 4, [])
  const FRESH_WRITE := Access(true, 1, 0, 4, [1, 0, 0, 0])

  /** A state in which the first read was given up and answered too late, and `n` writes followed. */
  ghost predicate Lagging(d0: Regs, es: seq<Event>, c: Config, n: nat) {
    && Reaches(d0, es, c) && c.w.waiting.None?
    && c.h.issued == [STALE_READ] + seq(n, _ => FRESH_WRITE)
    && c.h.answered == 0 && c.h.served == n + 1
  }

  lemma GivenUp(d0: Regs) returns (es: seq<Event>, c: Config)
    requires RegsOk(d0)
    ensures Lagging(d0, es, c, 0)
  {
    var c0 := Config(Start(d0), NO_HISTORY);
    var e1 := Issue(STALE_READ, 0);
    var c1 := Config(Step(c0.w, e1), Record(c0.h, c0.w, e1));
    Extend(d0, [], c0, e1, c1);
    var c2 := Config(Step(c1.w, GiveUp), Record(c1.h, c1.w, GiveUp));
    Extend(d0, [] + [e1], c1, GiveUp, c2);
    es := [] + [e1] + [GiveUp];
    es, c := Serving(d0, es, c2);
  }

  lemma Serving(d0: Regs, es: seq<Event>, b: Config) returns (es': seq<Event>, c: Config)
    requires RegsOk(d0) && Reaches(d0, es, b) && b.w.toSim != []
    ensures Reaches(d0, es', c) && c.w.waiting == b.w.waiting
    ensures c.h.issued == b.h.issued && c.h.answered == b.h.answered && c.h.served == b.h.served + 1
  {
    StreamsStayReadable(d0, es, b, 0);
    var e := Serve(0, 0);
    c := Config(Step(b.w, e), Record(b.h, b.w, e));
    Extend(d0, es, b, e, c);
    es' := es + [e];
  }

  lemma OneMoreWrite(d0: Regs, es: seq<Event>, b: Config) returns (es': seq<Event>, c: Config)
    requires RegsOk(d0) && Reaches(d0, es, b) && b.w.waiting.None?
    ensures Reaches(d0, es', c) && c.w.waiting.None? && c.h.issued == b.h.issued + [FRESH_WRITE]
    ensures c.h.answered == b.h.answered && c.h.served == b.h.served + 1
  {
    var e := Issue(FRESH_WRITE, 0);
    var c1 := Config(Step(b.w, e), Record(b.h, b.w, e));
    Extend(d0, es, b, e, c1);
    es', c := Serving(d0, es + [e], c1);
  }

  lemma {:induction false} LagGrows(d0: Regs, n: nat) returns (es: seq<Event>, c: Config)
    requires RegsOk(d0)
    ensures Lagging(d0, es, c, n)
    decreases n
  {
    if n == 0 {
      es, c := GivenUp(d0);
    } else {
      var es0, b := LagGrows(d0, n - 1);
      es, c := OneMoreWrite(d0, es0, b);
      assert seq(n - 1, _ => FRESH_WRITE) + [FRESH_WRITE] == seq(n, _ => FRESH_WRITE);
    }
  }

  /** The next read after a lag of `n` writes. */
  lemma ReadAfterLag(d0: Regs, n: nat) returns (es: seq<Event>, c: Config)
    requires RegsOk(d0)
    ensures Reaches(d0, es, c) && Good(d0, c) && c.w.waiting.Some?
    ensures c.h.issued == [STALE_READ] + seq(n, _ => FRESH_WRITE) + [STALE_READ]
    ensures c.h.answered == 0 && c.h.served == n + 1
  {
    var es0, b := LagGrows(d0, n);
    var e := Issue(STALE_READ, 0);
    c := Config(Step(b.w, e), Record(b.h, b.w, e));
    Extend(d0, es0, b, e, c);
    es := es0 + [e];
    RunsAreGood(d0, es, c);
  }

  lemma {:induction false} FirstReadIsOldest(issued: seq<Access>, n: nat)
    requires 0 < n <= |issued| && issued[0] == STALE_READ
    ensures |Reads(issued, n)| > 0 && Reads(issued, n)[0] == 0
  {
    assert Reads(issued, 1) == Reads(issued, 0) + [0] == [0];
    ReadsGrow(issued, 1, n);
  }

  lemma AnswerAfterLag(d0: Regs, es: seq<Event>, b: Config) returns (c: Config)
    requires RegsOk(d0) && Reaches(d0, es, b) && Good(d0, b) && b.w.waiting.Some?
    requires b.h.answered == 0 && 0 < b.h.served && b.h.issued != [] && b.h.issued[0] == STALE_READ
    ensures Reaches(d0, es + [Answer], c) && c.h.issued == b.h.issued && c.h.ended != []
    ensures var r := c.h.ended[|c.h.ended| - 1]; r.k == |b.h.issued| - 1 && r.turn == 0 && !r.timedOut
  {
    FirstReadIsOldest(b.h.issued, b.h.served);
    StreamOfSome(b.h.replies, 0);
    StreamsStayReadable(d0, es, b, 0);
    c := Config(Step(b.w, Answer), Record(b.h, b.w, Answer));
    Extend(d0, es, b, Answer, c);
  }

  lemma StaleReturn(d0: Regs, issued: seq<Access>, r: Return)
    requires RegsOk(d0) && AllOk(issued) && ReturnOk(d0, issued, r)
    requires !r.timedOut && r.k == 256 && r.turn == 0
    requires |issued| == 257 && issued[0] == issued[256] == STALE_READ
    ensures r.ok && r.data == Response(d0, issued, 0)
  {
    FirstReadIsOldest(issued, 257);
  }

  /** The bound of 256 is sharp. One read times out, 255 writes to the same word follow, and the next
      read of that word succeeds with what the word held before all of them. */
  lemma StaleAnswerAfter256(d0: Regs) returns (es: seq<Event>, c: Config)
    requires RegsOk(d0) && d0.bar1[0] != 1
    ensures Reaches(d0, es, c) && AllOk(c.h.issued) && |c.h.issued| == 257 && c.h.ended != []
    ensures var r := c.h.ended[|c.h.ended| - 1];
            && r.k == 256 && r.ok
            && r.data == Response(d0, c.h.issued, 0) != Response(d0, c.h.issued, 256)
  {
    var es1, b := ReadAfterLag(d0, 255);
    c := AnswerAfterLag(d0, es1, b);
    es := es1 + [Answer];
    RunsAreGood(d0, es, c);
    var issued, r := c.h.issued, c.h.ended[|c.h.ended| - 1];
    assert issued[0] == issued[256] == STALE_READ && issued[255] == FRESH_WRITE;
    assert ReturnOk(d0, issued, r);
    StaleReturn(d0, issued, r);
    StaleDiffers(d0, issued);
  }

  lemma FreshWord()
    ensures AccessOk(FRESH_WRITE) && WordAt(FRESH_WRITE.data, 0) == 1
  {
    var s: seq<Byte> := [1, 0, 0, 0];
    assert s[1..] == [0, 0, 0] && s[1..][1..] == [0, 0] && s[1..][1..][1..] == [0];
    assert FromLe(s[1..][1..]) == 0;
    assert FRESH_WRITE.data[0..4] == s;
  }

  lemma StaleDiffers(d0: Regs, issued: seq<Access>)
    requires RegsOk(d0) && d0.bar1[0] != 1
    requires |issued| == 257 && AllOk(issued) && issued[0] == issued[256] == STALE_READ
    requires issued[255] == FRESH_WRITE
    ensures Response(d0, issued, 0) != Response(d0, issued, 256)
  {
    var before := issued[..256];
    assert before[..255] == issued[..255] && before[255] == FRESH_WRITE;
    var dev := AfterAll(d0, before);
    assert dev == After(AfterAll(d0, issued[..255]), FRESH_WRITE);
    FreshWord();
    hide WordAt;
    BytesOfWordAt(ReadWords(dev, STALE_READ), 0);
    BytesOfWordAt(ReadWords(d0, STALE_READ), 0);
    assert issued[..0] == [];
  }
}
