/** Setting up the two channels: the bridge connects and shakes hands (common/src/socket_channel.cpp),
    the simulator accepts and shakes hands (src/bridge/pcie_cosim_if.cpp), each blocking on its own. */
module Setup {

  type Channel = x: int | 0 <= x < 2

  /** Where the bridge is: connecting its i-th channel; waiting for the hello of a channel; about to
      acknowledge it; through. */
  datatype BridgePc = Connect(i: Channel) | AwaitHello(i: Channel) | SendAck(i: Channel) | BridgeReady

  /** Where the simulator is: polling the listeners; going through one poll result; about to send the
      n-th hello; waiting for an answer to it; through. */
  datatype SimPc =
    | Polling
    | Accepting(i: Channel, hit0: bool, hit1: bool)
    | SendHello(n: Channel)
    | AwaitReply(n: Channel)
    | SimReady

  /** Per channel: whether a connection waits to be accepted, whether the simulator's ACK and the
      bridge's ACK are in flight. `transOrder` and `active` as in the source. */
  datatype State = State(
    b: BridgePc, s: SimPc,
    pending0: bool, pending1: bool, hello0: bool, hello1: bool, ack0: bool, ack1: bool,
    transOrder: seq<Channel>, active: int)

  datatype Action = Bridge | Poll | Accept | Hello | Take(from: Channel)

  predicate HelloWaits(t: State, c: Channel) {
    if c == 0 then t.hello0 else t.hello1
  }

  predicate AckWaits(t: State, c: Channel) {
    if c == 0 then t.ack0 else t.ack1
  }

  function SetPending(t: State, c: Channel, v: bool): State {
    if c == 0 then t.(pending0 := v) else t.(pending1 := v)
  }

  function SetHello(t: State, c: Channel, v: bool): State {
    if c == 0 then t.(hello0 := v) else t.(hello1 := v)
  }

  function SetAck(t: State, c: Channel, v: bool): State {
    if c == 0 then t.(ack0 := v) else t.(ack1 := v)
  }

  /** The channel the bridge connects i-th; as coded this is i. */
  function ConnectsTo(reversed: bool, i: Channel): Channel {
    if reversed then 1 - i else i
  }

  /** A blocking call is enabled when it can return. */
  predicate Enabled(t: State, a: Action) {
    match a
    case Bridge => t.b.Connect? || t.b.SendAck? || (t.b.AwaitHello? && HelloWaits(t, t.b.i))
    case Poll => t.s.Polling? && (t.pending0 || t.pending1)
    case Accept => t.s.Accepting?
    case Hello => t.s.SendHello? && |t.transOrder| == 2
    case Take(c) => t.s.AwaitReply? && AckWaits(t, c)
  }

  function BridgeMoves(reversed: bool, t: State): State
    requires Enabled(t, Bridge)
  {
    match t.b
    case Connect(i) =>
      SetPending(t, ConnectsTo(reversed, i), true).(b := if i == 0 then Connect(1) else AwaitHello(0))
    case AwaitHello(i) => SetHello(t, i, false).(b := SendAck(i))
    case SendAck(i) => SetAck(t, i, true).(b := if i == 0 then AwaitHello(1) else BridgeReady)
    case BridgeReady => t
  }

  function AcceptMoves(t: State): State
    requires t.s.Accepting?
  {
    var c := t.s.i;
    var hit := if c == 0 then t.s.hit0 else t.s.hit1;
    var u := if hit then SetPending(t, c, false).(transOrder := t.transOrder + [c]) else t;
    if c == 0 then u.(s := Accepting(1, t.s.hit0, t.s.hit1))
    else u.(s := if |u.transOrder| < 2 then Polling else SendHello(0))
  }

  function Step(reversed: bool, t: State, a: Action): State
    requires Enabled(t, a)
  {
    match a
    case Bridge => BridgeMoves(reversed, t)
    case Poll => t.(s := Accepting(0, t.pending0, t.pending1))
    case Accept => AcceptMoves(t)
    case Hello =>
      var c := t.transOrder[t.s.n];
      SetHello(t, c, true).(active := c, s := AwaitReply(t.s.n))
    case Take(c) =>
      SetAck(t, c, false).(active := c, s := if t.s.n == 0 then SendHello(1) else SimReady)
  }

  const INITIAL := State(Connect(0), Polling, false, false, false, false, false, false, [], -1)

  predicate Final(t: State) {
    t.b.BridgeReady? && t.s.SimReady?
  }

  predicate Runs(reversed: bool, t: State, acts: seq<Action>)
    decreases |acts|
  {
    acts == [] || (Enabled(t, acts[0]) && Runs(reversed, Step(reversed, t, acts[0]), acts[1..]))
  }

  function After(reversed: bool, t: State, acts: seq<Action>): State
    requires Runs(reversed, t, acts)
    decreases |acts|
  {
    if acts == [] then t else After(reversed, Step(reversed, t, acts[0]), acts[1..])
  }

  // ---- The order as coded ----

  predicate Connected(t: State, c: Channel) {
    !t.b.Connect? || c < t.b.i
  }

  predicate Quiet(t: State) {
    !t.hello0 && !t.hello1 && !t.ack0 && !t.ack1
  }

  /** Connections are accepted in the order 0, 1, and the two sides shake hands in lock step. */
  predicate Ok(t: State) {
    var accepted := |t.transOrder|;
    && (t.transOrder == [] || t.transOrder == [0] || t.transOrder == [0, 1])
    && (accepted >= 1 ==> Connected(t, 0)) && (accepted == 2 ==> Connected(t, 1))
    && (t.pending0 <==> Connected(t, 0) && accepted == 0)
    && (t.pending1 <==> Connected(t, 1) && accepted < 2)
    && match t.s
       case Polling => accepted < 2 && Quiet(t) && (t.b.Connect? || t.b == AwaitHello(0))
       case Accepting(i, hit0, hit1) =>
         && Quiet(t) && (t.b.Connect? || t.b == AwaitHello(0))
         && (hit0 || hit1) && (hit1 ==> t.pending1)
         && (if i == 0 then
               (hit0 ==> t.pending0) && (hit1 ==> hit0 || accepted == 1) && (!hit1 ==> accepted == 0)
             else
               accepted == 1)
       case SendHello(n) => accepted == 2 && Quiet(t) && t.b == AwaitHello(n)
       case AwaitReply(n) =>
         && accepted == 2
         && (t.hello0 <==> t.b == AwaitHello(0) && n == 0)
         && (t.hello1 <==> t.b == AwaitHello(1) && n == 1)
         && (t.ack0 <==> t.b == AwaitHello(1) && n == 0)
         && (t.ack1 <==> t.b.BridgeReady? && n == 1)
         && (t.b == AwaitHello(n) || t.b == SendAck(n)
             || t.b == (if n == 0 then AwaitHello(1) else BridgeReady))
       case SimReady => accepted == 2 && Quiet(t) && t.b.BridgeReady? && t.active == 1
  }

  function BridgeRank(b: BridgePc): nat {
    match b
    case Connect(i) => 6 - i
    case AwaitHello(i) => 4 - 2 * i
    case SendAck(i) => 3 - 2 * i
    case BridgeReady => 0
  }

  function SimRank(s: SimPc, accepted: nat): nat
    requires accepted <= 2
  {
    var todo := 20 + 10 * (2 - accepted);
    match s
    case Polling => todo
    case Accepting(i, _, hit1) => if i == 0 then todo - 1 else if hit1 then todo - 2 else todo + 5
    case SendHello(n) => 10 - 2 * n
    case AwaitReply(n) => 9 - 2 * n
    case SimReady => 0
  }

  /** Moves still possible, roughly. */
  function Rank(t: State): nat
    requires |t.transOrder| <= 2
  {
    BridgeRank(t.b) + SimRank(t.s, |t.transOrder|)
  }

  lemma BridgeOk(t: State)
    requires Ok(t) && Enabled(t, Bridge)
    ensures Ok(Step(false, t, Bridge)) && Rank(Step(false, t, Bridge)) < Rank(t)
  {
  }

  lemma AcceptOk(t: State)
    requires Ok(t) && t.s.Accepting?
    ensures Ok(Step(false, t, Accept)) && Rank(Step(false, t, Accept)) < Rank(t)
  {
    if t.s.i == 0 && t.s.hit0 {
      assert AcceptMoves(t).transOrder == [0];
    } else if t.s.i == 1 && t.s.hit1 {
      assert AcceptMoves(t).transOrder == [0, 1];
    }
  }

  lemma OtherOk(t: State, a: Action)
    requires Ok(t) && Enabled(t, a) && !a.Bridge? && !a.Accept?
    ensures Ok(Step(false, t, a)) && Rank(Step(false, t, a)) < Rank(t)
  {
  }

  /** Every move keeps the order and the lock step, and leaves fewer moves to go. */
  lemma StepOk(t: State, a: Action)
    requires Ok(t) && Enabled(t, a)
    ensures Ok(Step(false, t, a)) && Rank(Step(false, t, a)) < Rank(t)
  {
    match a {
      case Bridge => BridgeOk(t);
      case Accept => AcceptOk(t);
      case Poll => OtherOk(t, a);
      case Hello => OtherOk(t, a);
      case Take(_) => OtherOk(t, a);
    }
  }

  /** In every state short of the end somebody can move. */
  lemma SomethingEnabled(t: State)
    requires Ok(t) && !Final(t)
    ensures exists a: Action :: Enabled(t, a)
  {
    match t.s {
      case Polling =>
        if t.b.Connect? {
          assert Enabled(t, Bridge);
        } else {
          assert Enabled(t, Poll);
        }
      case Accepting(_, _, _) => assert Enabled(t, Accept);
      case SendHello(_) => assert Enabled(t, Hello);
      case AwaitReply(n) =>
        if t.ack0 {
          assert Enabled(t, Take(0));
        } else if t.ack1 {
          assert Enabled(t, Take(1));
        } else {
          assert Enabled(t, Bridge);
        }
      case SimReady =>
    }
  }

  lemma {:induction false} RunsStayOk(t: State, acts: seq<Action>)
    requires Ok(t) && Runs(false, t, acts)
    ensures Ok(After(false, t, acts))
    ensures |acts| + Rank(After(false, t, acts)) <= Rank(t)
    decreases |acts|
  {
    if acts != [] {
      StepOk(t, acts[0]);
      RunsStayOk(Step(false, t, acts[0]), acts[1..]);
    }
  }

  /** With the connects in the coded order no interleaving of the two sides gets stuck: any run is short,
      can be continued until both are through, and then the channels were taken in the order [0, 1],
      every handshake packet was consumed, and the simulator's active socket is the async channel. */
  lemma {:induction false} SetupCompletes(acts: seq<Action>)
    requires Runs(false, INITIAL, acts)
    ensures |acts| <= 46
    ensures var t := After(false, INITIAL, acts);
            && (!Final(t) ==> exists a: Action :: Enabled(t, a))
            && (Final(t) ==> t.transOrder == [0, 1] && Quiet(t) && t.active == 1)
            && (t.s.SendHello? || t.s.AwaitReply? || t.s.SimReady? ==> t.transOrder == [0, 1])
  {
    RunsStayOk(INITIAL, acts);
    if !Final(After(false, INITIAL, acts)) {
      SomethingEnabled(After(false, INITIAL, acts));
    }
  }

  // ---- The other order ----

  /** A run from the start, and the state it ends in. */
  predicate Leads(reversed: bool, acts: seq<Action>, t: State) {
    Runs(reversed, INITIAL, acts) && After(reversed, INITIAL, acts) == t
  }

  lemma {:induction false} RunSnoc(reversed: bool, t: State, acts: seq<Action>, a: Action)
    requires Runs(reversed, t, acts) && Enabled(After(reversed, t, acts), a)
    ensures Runs(reversed, t, acts + [a])
    ensures After(reversed, t, acts + [a]) == Step(reversed, After(reversed, t, acts), a)
    decreases |acts|
  {
    if acts == [] {
      assert [] + [a] == [a] && [a][1..] == [];
      assert After(reversed, Step(reversed, t, a), []) == Step(reversed, t, a);
    } else {
      RunSnoc(reversed, Step(reversed, t, acts[0]), acts[1..], a);
      assert (acts + [a])[1..] == acts[1..] + [a];
    }
  }

  lemma Go(acts: seq<Action>, t: State, a: Action) returns (more: seq<Action>)
    requires Leads(true, acts, t) && Enabled(t, a)
    ensures Leads(true, more, Step(true, t, a))
  {
    RunSnoc(true, INITIAL, acts, a);
    more := acts + [a];
  }

  /** Channel 1 is connected and accepted before channel 0 is connected. */
  lemma FirstChannelOne() returns (acts: seq<Action>)
    ensures Leads(true, acts, INITIAL.(b := Connect(1), transOrder := [1]))
  {
    var t1 := INITIAL.(b := Connect(1), pending1 := true);
    acts := Go([], INITIAL, Bridge);
    acts := Go(acts, t1, Poll);
    acts := Go(acts, t1.(s := Accepting(0, false, true)), Accept);
    acts := Go(acts, t1.(s := Accepting(1, false, true)), Accept);
  }

  /** Were the bridge to connect channel 1 first, there would be a run into a deadlock: the simulator
      accepts channel 1 first and waits for its handshake while the bridge waits on channel 0. */
  lemma ReversedConnectsDeadlock() returns (acts: seq<Action>)
    ensures Runs(true, INITIAL, acts)
    ensures var t := After(true, INITIAL, acts);
            !Final(t) && t.transOrder == [1, 0] && forall a: Action :: !Enabled(t, a)
  {
    acts := FirstChannelOne();
    var t5 := INITIAL.(b := AwaitHello(0), transOrder := [1], pending0 := true);
    acts := Go(acts, INITIAL.(b := Connect(1), transOrder := [1]), Bridge);
    acts := Go(acts, t5, Poll);
    acts := Go(acts, t5.(s := Accepting(0, true, false)), Accept);
    var t7 := t5.(s := Accepting(1, true, false), pending0 := false, transOrder := [1, 0]);
    acts := Go(acts, t7, Accept);
    acts := Go(acts, t7.(s := SendHello(0)), Hello);
  }
}
