/** The vfio-user dissector (tools/net/vfio_user.lua): a fragment buffer kept across captured segments, and
    a scan for message headers inside a segment. */
module VfioUser {
  import opened Protocol

  const HEADER: nat := 16
  const MAX_SIZE: nat := 1048576

  // ---- Header fields ----

  function CmdAt(tv: seq<Byte>, at: nat): nat
    requires at + HEADER <= |tv|
  {
    FromLe(tv[at + 2..at + 4])
  }

  function SizeAt(tv: seq<Byte>, at: nat): nat
    requires at + HEADER <= |tv|
  {
    FromLe(tv[at + 4..at + 8])
  }

  predicate ReplyAt(tv: seq<Byte>, at: nat)
    requires at + HEADER <= |tv|
  {
    FromLe(tv[at + 8..at + 12]) % 2 == 1
  }

  predicate HeaderOk(tv: seq<Byte>, at: nat)
    requires at + HEADER <= |tv|
  {
    var cmd, size := CmdAt(tv, at), SizeAt(tv, at);
    1 <= cmd <= 18 && cmd != 14 && HEADER <= size <= MAX_SIZE
  }

  /** A whole message: a valid header that announces its own length. */
  predicate IsMessage(b: seq<Byte>) {
    |b| >= HEADER && HeaderOk(b, 0) && SizeAt(b, 0) == |b|
  }

  predicate AllMessages(ms: seq<seq<Byte>>) {
    forall i :: 0 <= i < |ms| ==> IsMessage(ms[i])
  }

  /** The reply bit of a message. */
  predicate IsReply(b: seq<Byte>) {
    |b| >= HEADER && ReplyAt(b, 0)
  }

  // ---- What is remembered ----

  /** packet_states[f_num]. Only a reassembled state's buffer is ever read again. */
  datatype PacketState =
    | ZeroLen | SubLen
    | FullMsg(isReply: bool)
    | FragHdr(expected: nat, isReply: bool)
    | FragMsg(expected: nat, isReply: bool)
    | Reassembled(buffer: seq<Byte>, length: nat, isReply: bool)

  /** frag_hdr. */
  datatype Frag = Frag(buffer: seq<Byte>, expected: nat, isReply: bool)

  datatype Memory = Memory(states: map<nat, PacketState>, frag: Option<Frag>)

  /** process_msg_frags on a first visit: the state of this segment, and the fragment buffer. */
  function Noted(frag: Option<Frag>, tv: seq<Byte>): (PacketState, Option<Frag>) {
    if frag.Some? && frag.value.expected > |frag.value.buffer| then
      var f := frag.value;
      var buffer := f.buffer + tv;
      if |buffer| >= f.expected then (Reassembled(buffer, f.expected, f.isReply), None)
      else (FragMsg(f.expected, f.isReply), Some(f.(buffer := buffer)))
    else if |tv| == 0 then (ZeroLen, frag)
    else if |tv| < HEADER then (SubLen, frag)
    else
      var size, reply := SizeAt(tv, 0), ReplyAt(tv, 0);
      if |tv| < size <= MAX_SIZE then (FragHdr(size, reply), Some(Frag(tv, size, reply)))
      else (FullMsg(reply), frag)
  }

  // ---- The scan ----

  /** Messages found, where a message begins that does not end here, and where the scan stopped. */
  datatype Scan = Scan(messages: seq<seq<Byte>>, tail: Option<nat>, stop: nat, locked: bool)

  function ScanFrom(tv: seq<Byte>, at: nat): (r: Scan)
    requires at <= |tv|
    ensures at <= r.stop <= |tv|
    ensures r.tail.Some? ==> r.tail.value + HEADER <= |tv|
    decreases |tv| - at
  {
    if |tv| - at < HEADER then Scan([], None, at, false)
    else if !HeaderOk(tv, at) then ScanFrom(tv, at + 1)
    else
      var size := SizeAt(tv, at);
      if |tv| - at < size then Scan([], Some(at), |tv|, true)
      else
        var r := ScanFrom(tv, at + size);
        r.(messages := [tv[at..at + size]] + r.messages, locked := true)
  }

  // ---- One segment ----

  /** A message as shown, with the direction it is labelled with. */
  datatype Labelled = Labelled(bytes: seq<Byte>, isReply: bool)

  datatype Note = Nothing | Gap | Fragment

  datatype Dissection = Dissection(memory: Memory, messages: seq<Labelled>, note: Note, consumed: nat)

  function LabelAll(ms: seq<seq<Byte>>, isReply: bool): (r: seq<Labelled>)
    ensures |r| == |ms|
  {
    seq(|ms|, i requires 0 <= i < |ms| => Labelled(ms[i], isReply))
  }

  /** A message begins at `at` and does not end in this segment. */
  function Begun(m: Memory, tv: seq<Byte>, num: nat, visited: bool, at: nat): Memory
    requires num in m.states && at + HEADER <= |tv|
  {
    if visited || !m.states[num].FullMsg? then m
    else
      var size, reply := SizeAt(tv, at), ReplyAt(tv, at);
      Memory(m.states[num := FragHdr(size, reply)], Some(Frag(tv[at..], size, reply)))
  }

  /** `r` is what is left of the scan `all`. */
  predicate Continues(all: Scan, found: seq<seq<Byte>>, locked: bool, r: Scan) {
    && all.messages == found + r.messages && all.tail == r.tail && all.stop == r.stop
    && all.locked == (locked || r.locked)
  }

  /** One turn of the loop at `at`: the scan goes on behind it, or stops. */
  lemma ScanTurn(tv: seq<Byte>, at: nat, all: Scan, found: seq<seq<Byte>>, locked: bool)
    requires at + HEADER <= |tv| && Continues(all, found, locked, ScanFrom(tv, at))
    ensures if !HeaderOk(tv, at) then Continues(all, found, locked, ScanFrom(tv, at + 1))
            else var next := at + SizeAt(tv, at);
                 if next > |tv| then all == Scan(found, Some(at), |tv|, true)
                 else Continues(all, found + [tv[at..next]], true, ScanFrom(tv, next))
  {
  }

  /** No room for another header: the scan stops. */
  lemma {:induction false} ScanEnds(tv: seq<Byte>, at: nat, all: Scan, found: seq<seq<Byte>>, locked: bool)
    requires at <= |tv| < at + HEADER && Continues(all, found, locked, ScanFrom(tv, at))
    ensures all == Scan(found, None, at, locked)
  {
  }

  lemma LabelSnoc(ms: seq<seq<Byte>>, b: seq<Byte>, isReply: bool)
    ensures LabelAll(ms + [b], isReply) == LabelAll(ms, isReply) + [Labelled(b, isReply)]
  {
  }

  /** The scanning part of the dissector, for a segment in one of the other states. */
  function Scanned(m: Memory, tv: seq<Byte>, num: nat, visited: bool, isReply: bool): Dissection
    requires num in m.states
  {
    var r := ScanFrom(tv, 0);
    var m' := if r.tail.Some? then Begun(m, tv, num, visited, r.tail.value) else m;
    var gap := !r.locked && r.stop > 0;
    Dissection(m', LabelAll(r.messages, isReply),
               if gap then Gap else if r.tail.Some? then Fragment else Nothing,
               if gap then |tv| else r.stop)
  }

  function Shown(m: Memory, tv: seq<Byte>, num: nat, visited: bool): Dissection {
    if num !in m.states then Dissection(m, [], Gap, 0)
    else match m.states[num]
      case ZeroLen => Dissection(m, [], Gap, 0)
      case Reassembled(buffer, length, isReply) =>
        Dissection(m, [Labelled(Prefix(buffer, length), isReply)], Nothing, |tv|)
      case FragMsg(_, _) => Dissection(m, [], Fragment, |tv|)
      case SubLen => Scanned(m, tv, num, visited, false)
      case FullMsg(isReply) => Scanned(m, tv, num, visited, isReply)
      case FragHdr(_, isReply) => Scanned(m, tv, num, visited, isReply)
  }

  function Prefix(b: seq<Byte>, n: nat): seq<Byte> {
    if n <= |b| then b[..n] else b
  }

  function Remembered(m: Memory, tv: seq<Byte>, num: nat): Memory {
    var (state, frag) := Noted(m.frag, tv);
    Memory(m.states[num := state], frag)
  }

  /** vfio_user_proto.dissector on segment `num`. */
  function Dissected(m: Memory, tv: seq<Byte>, num: nat, visited: bool): Dissection {
    Shown(if visited then m else Remembered(m, tv, num), tv, num, visited)
  }

  /** The segments of a capture, numbered from `first`, seen for the first time. */
  function Capture(m: Memory, first: nat, tvs: seq<seq<Byte>>): (r: (Memory, seq<seq<Labelled>>))
    ensures |r.1| == |tvs|
    decreases |tvs|
  {
    if tvs == [] then (m, [])
    else
      var d := Dissected(m, tvs[0], first, false);
      var (m', rest) := Capture(d.memory, first + 1, tvs[1..]);
      (m', [d.messages] + rest)
  }

  // ---- Segmentation ----

  function Join(ms: seq<seq<Byte>>): seq<Byte> {
    if ms == [] then [] else ms[0] + Join(ms[1..])
  }

  /** A segment as the sender cuts it: whole messages and perhaps the beginning of one more, or more of
      the message that was begun. */
  datatype Piece = Start(whole: seq<seq<Byte>>, part: seq<Byte>) | Continue(more: seq<Byte>)

  function Bytes(p: Piece): seq<Byte> {
    match p
    case Start(whole, part) => Join(whole) + part
    case Continue(more) => more
  }

  /** The beginning of a message, its header included. */
  predicate Begins(part: seq<Byte>, msg: seq<Byte>) {
    IsMessage(msg) && HEADER <= |part| < |msg| && part == msg[..|part|]
  }

  /** `pieces` are a cutting of `msgs`, of the first of which `had` has been sent already. */
  predicate Cut(pieces: seq<Piece>, msgs: seq<seq<Byte>>, had: seq<Byte>)
    decreases |pieces|
  {
    if pieces == [] then msgs == [] && had == []
    else match pieces[0]
      case Start(whole, part) =>
        && had == [] && Bytes(pieces[0]) != [] && whole <= msgs
        && (part == [] || (|whole| < |msgs| && Begins(part, msgs[|whole|])))
        && Cut(pieces[1..], msgs[|whole|..], part)
      case Continue(more) =>
        && msgs != [] && Begins(had, msgs[0]) && more != [] && had + more <= msgs[0]
        && if |had + more| == |msgs[0]| then Cut(pieces[1..], msgs[1..], [])
           else Cut(pieces[1..], msgs, had + more)
  }

  lemma SliceOfSlice(a: seq<Byte>, at: nat, i: nat, j: nat)
    requires i <= j <= HEADER && at + HEADER <= |a|
    ensures a[at + i..at + j] == a[at..at + HEADER][i..j]
  {
    var h := a[at..at + HEADER];
    forall k | 0 <= k < j - i ensures a[at + i..at + j][k] == h[i..j][k] {
      assert h[i + k] == a[at + i + k];
    }
  }

  lemma FieldsOfPrefix(a: seq<Byte>, at: nat, msg: seq<Byte>)
    requires at + HEADER <= |a| && |msg| >= HEADER && a[at..at + HEADER] == msg[0..HEADER]
    ensures CmdAt(a, at) == CmdAt(msg, 0) && SizeAt(a, at) == SizeAt(msg, 0) && ReplyAt(a, at) == ReplyAt(msg, 0)
  {
    SliceOfSlice(a, at, 2, 4);
    SliceOfSlice(a, at, 4, 8);
    SliceOfSlice(a, at, 8, 12);
    SliceOfSlice(msg, 0, 2, 4);
    SliceOfSlice(msg, 0, 4, 8);
    SliceOfSlice(msg, 0, 8, 12);
  }

  lemma MessageAt(tv: seq<Byte>, at: nat, msg: seq<Byte>, rest: seq<Byte>)
    requires at <= |tv| && tv[at..] == msg + rest && IsMessage(msg)
    ensures at + |msg| <= |tv| && HeaderOk(tv, at) && SizeAt(tv, at) == |msg|
    ensures tv[at..at + |msg|] == msg && tv[at + |msg|..] == rest
  {
    assert tv[at..at + |msg|] == (msg + rest)[..|msg|] == msg;
    assert tv[at + |msg|..] == (msg + rest)[|msg|..] == rest;
    assert tv[at..at + HEADER] == msg[0..HEADER];
    FieldsOfPrefix(tv, at, msg);
  }

  /** Where a whole message stands the scan takes it and goes on behind it. */
  lemma ScanTakes(tv: seq<Byte>, at: nat, msg: seq<Byte>, rest: seq<Byte>)
    requires at <= |tv| && tv[at..] == msg + rest && IsMessage(msg)
    ensures at + |msg| <= |tv| && tv[at + |msg|..] == rest
    ensures var r := ScanFrom(tv, at + |msg|);
            ScanFrom(tv, at) == r.(messages := [msg] + r.messages, locked := true)
  {
    MessageAt(tv, at, msg, rest);
  }

  lemma PartAt(tv: seq<Byte>, part: seq<Byte>, next: seq<Byte>)
    requires Begins(part, next) && |tv| >= |part| && tv[|tv| - |part|..] == part
    ensures var at := |tv| - |part|;
            HeaderOk(tv, at) && SizeAt(tv, at) == |next| && ReplyAt(tv, at) == IsReply(next)
  {
    var at := |tv| - |part|;
    assert tv[at..at + HEADER] == part[0..HEADER] == next[0..HEADER];
    FieldsOfPrefix(tv, at, next);
  }

  lemma {:induction false} JoinFirst(whole: seq<seq<Byte>>, part: seq<Byte>)
    requires whole != []
    ensures Join(whole) + part == whole[0] + (Join(whole[1..]) + part)
  {
    JoinAssociates(whole[0], Join(whole[1..]), part);
  }

  lemma {:induction false} ScanPart(tv: seq<Byte>, at: nat, part: seq<Byte>, next: seq<Byte>)
    requires at <= |tv| && tv[at..] == [] + part && (part == [] || Begins(part, next))
    ensures ScanFrom(tv, at) == if part == [] then Scan([], None, |tv|, false) else Scan([], Some(at), |tv|, true)
  {
    assert tv[at..] == part;
    if part != [] {
      PartAt(tv, part, next);
    }
  }

  /** The scan finds exactly the whole messages, and the beginning of the one cut off. */
  lemma {:induction false} ScanFindsPieces(tv: seq<Byte>, at: nat, whole: seq<seq<Byte>>, part: seq<Byte>,
                                           next: seq<Byte>)
    requires at <= |tv| && tv[at..] == Join(whole) + part && AllMessages(whole)
    requires part == [] || Begins(part, next)
    ensures var r := ScanFrom(tv, at);
            && r.messages == whole && r.stop == |tv| && (r.locked <==> whole != [] || part != [])
            && r.tail == if part == [] then None else Some(|tv| - |part|)
    decreases |whole|
  {
    if whole == [] {
      ScanPart(tv, at, part, next);
    } else {
      var msg, rest := whole[0], Join(whole[1..]) + part;
      JoinFirst(whole, part);
      assert IsMessage(msg) && AllMessages(whole[1..]);
      hide *;
      ScanTakes(tv, at, msg, rest);
      ScanFindsPieces(tv, at + |msg|, whole[1..], part, next);
      assert whole == [msg] + whole[1..];
    }
  }

  /** frag_hdr between segments: the message begun, of which `had` has been seen. */
  function Awaiting(msg: seq<Byte>, had: seq<Byte>): Option<Frag> {
    if had == [] then None else Some(Frag(had, |msg|, IsReply(msg)))
  }

  lemma StartNoted(whole: seq<seq<Byte>>, part: seq<Byte>, next: seq<Byte>)
    requires Bytes(Start(whole, part)) != [] && AllMessages(whole)
    requires part == [] || Begins(part, next)
    ensures Noted(None, Bytes(Start(whole, part))) ==
            if whole == [] then (FragHdr(|next|, IsReply(next)), Awaiting(next, part))
            else (FullMsg(IsReply(whole[0])), None)
  {
    var tv := Bytes(Start(whole, part));
    if whole == [] {
      assert tv == part && tv[0..HEADER] == next[0..HEADER];
      FieldsOfPrefix(tv, 0, next);
    } else {
      assert IsMessage(whole[0]);
      assert tv == whole[0] + (Join(whole[1..]) + part);
      assert tv[0..HEADER] == whole[0][0..HEADER];
      FieldsOfPrefix(tv, 0, whole[0]);
    }
  }

  lemma StartScanned(m: Memory, num: nat, whole: seq<seq<Byte>>, part: seq<Byte>, next: seq<Byte>)
    requires num in m.states && (m.states[num].FullMsg? || m.states[num].FragHdr?) && AllMessages(whole)
    requires part == [] || Begins(part, next)
    ensures var d := Shown(m, Bytes(Start(whole, part)), num, false);
            && d.messages == LabelAll(whole, m.states[num].isReply)
            && d.memory == if part == [] || m.states[num].FragHdr? then m
                           else Memory(m.states[num := FragHdr(|next|, IsReply(next))], Awaiting(next, part))
  {
    var tv := Bytes(Start(whole, part));
    assert tv[0..] == tv;
    ScanFindsPieces(tv, 0, whole, part, next);
    hide ScanFrom, HeaderOk, Join, AllMessages;
    if part != [] && m.states[num].FullMsg? {
      var at := |tv| - |part|;
      assert tv[at..] == part;
      PartAt(tv, part, next);
      assert Begun(m, tv, num, false, at).frag == Awaiting(next, part);
    }
  }

  /** A starting segment: its whole messages are shown, all under the label of the first, and what has
      begun is kept. */
  lemma StartDissected(m: Memory, num: nat, whole: seq<seq<Byte>>, part: seq<Byte>, next: seq<Byte>)
    requires m.frag == None && Bytes(Start(whole, part)) != [] && AllMessages(whole)
    requires part == [] || Begins(part, next)
    ensures var d := Dissected(m, Bytes(Start(whole, part)), num, false);
            && d.messages == (if whole == [] then [] else LabelAll(whole, IsReply(whole[0])))
            && d.memory.frag == Awaiting(next, part)
            && num in d.memory.states && d.memory.states[num] ==
               (if part == [] then FullMsg(IsReply(whole[0])) else FragHdr(|next|, IsReply(next)))
  {
    StartNoted(whole, part, next);
    StartScanned(Remembered(m, Bytes(Start(whole, part)), num), num, whole, part, next);
  }

  /** A continuing segment: nothing is shown before the end of its message, then that message, under its
      own label. */
  lemma ContinueDissected(m: Memory, num: nat, more: seq<Byte>, msg: seq<Byte>, had: seq<Byte>)
    requires Begins(had, msg) && m.frag == Awaiting(msg, had)
    requires more != [] && had + more <= msg
    ensures var d := Dissected(m, more, num, false);
            if |had + more| == |msg| then
              d.messages == [Labelled(msg, IsReply(msg))] && d.memory.frag == None
            else d.messages == [] && d.memory.frag == Awaiting(msg, had + more) && Begins(had + more, msg)
  {
    assert had + more == msg[..|had + more|] && msg == msg[..|msg|];
  }

  function Unlabelled(ls: seq<Labelled>): (r: seq<seq<Byte>>)
    ensures |r| == |ls|
  {
    seq(|ls|, i requires 0 <= i < |ls| => ls[i].bytes)
  }

  function AllBytes(shown: seq<seq<Labelled>>): seq<seq<Byte>> {
    if shown == [] then [] else Unlabelled(shown[0]) + AllBytes(shown[1..])
  }

  function Segments(pieces: seq<Piece>): (r: seq<seq<Byte>>)
    ensures |r| == |pieces|
  {
    seq(|pieces|, i requires 0 <= i < |pieces| => Bytes(pieces[i]))
  }

  lemma {:induction false} CaptureOne(m: Memory, first: nat, pieces: seq<Piece>)
    requires pieces != []
    ensures var d := Dissected(m, Bytes(pieces[0]), first, false);
            var (m', shown) := Capture(m, first, Segments(pieces));
            var (m'', rest) := Capture(d.memory, first + 1, Segments(pieces[1..]));
            m' == m'' && AllBytes(shown) == Unlabelled(d.messages) + AllBytes(rest)
  {
    var tvs, d := Segments(pieces), Dissected(m, Bytes(pieces[0]), first, false);
    assert tvs[1..] == Segments(pieces[1..]);
    var (_, rest) := Capture(d.memory, first + 1, tvs[1..]);
    assert ([d.messages] + rest)[1..] == rest;
  }

  lemma {:induction false} CutStart(pieces: seq<Piece>, msgs: seq<seq<Byte>>, had: seq<Byte>)
    requires pieces != [] && pieces[0].Start? && AllMessages(msgs) && Cut(pieces, msgs, had)
    ensures var (whole, part) := (pieces[0].whole, pieces[0].part);
            && |whole| <= |msgs| && whole + msgs[|whole|..] == msgs && AllMessages(whole)
            && AllMessages(msgs[|whole|..]) && Bytes(pieces[0]) != []
            && (part == [] || (|whole| < |msgs| && Begins(part, msgs[|whole|])))
            && Cut(pieces[1..], msgs[|whole|..], part)
  {
    hide IsMessage, Begins, Join;
  }

  /** The first piece starts messages. */
  lemma StartPiece(m: Memory, num: nat, pieces: seq<Piece>, msgs: seq<seq<Byte>>, had: seq<Byte>)
    returns (left: seq<seq<Byte>>, begun: seq<Byte>)
    requires pieces != [] && AllMessages(msgs) && Cut(pieces, msgs, had) && pieces[0].Start? && m.frag == None
    ensures var d := Dissected(m, Bytes(pieces[0]), num, false);
            && Unlabelled(d.messages) + left == msgs && (begun == [] || left != [])
            && d.memory.frag == if begun == [] then None else Awaiting(left[0], begun)
    ensures AllMessages(left) && Cut(pieces[1..], left, begun)
  {
    var whole, part := pieces[0].whole, pieces[0].part;
    hide Cut, Dissected, Begins, Bytes, AllMessages;
    CutStart(pieces, msgs, had);
    left, begun := msgs[|whole|..], part;
    StartDissected(m, num, whole, part, if part == [] then [] else left[0]);
    assert Unlabelled(Dissected(m, Bytes(pieces[0]), num, false).messages) == whole;
  }

  /** The first piece continues a message. */
  lemma ContinuePiece(m: Memory, num: nat, pieces: seq<Piece>, msgs: seq<seq<Byte>>, had: seq<Byte>)
    returns (left: seq<seq<Byte>>, begun: seq<Byte>)
    requires pieces != [] && AllMessages(msgs) && Cut(pieces, msgs, had) && pieces[0].Continue?
    requires msgs != [] && m.frag == Awaiting(msgs[0], had)
    ensures var d := Dissected(m, Bytes(pieces[0]), num, false);
            && Unlabelled(d.messages) + left == msgs && (begun == [] || left != [])
            && d.memory.frag == if begun == [] then None else Awaiting(left[0], begun)
    ensures AllMessages(left) && Cut(pieces[1..], left, begun)
  {
    var more := pieces[0].more;
    ContinueDissected(m, num, more, msgs[0], had);
    hide Cut, Dissected, Begins, AllMessages;
    if |had + more| == |msgs[0]| {
      left, begun := msgs[1..], [];
      assert Unlabelled(Dissected(m, more, num, false).messages) == [msgs[0]];
    } else {
      left, begun := msgs, had + more;
      assert Unlabelled(Dissected(m, more, num, false).messages) == [];
    }
  }

  /** What is left of a cutting after its first piece: `left` unshown messages, `begun` of the first. */
  lemma PieceDissected(m: Memory, num: nat, pieces: seq<Piece>, msgs: seq<seq<Byte>>, had: seq<Byte>)
    returns (left: seq<seq<Byte>>, begun: seq<Byte>)
    requires pieces != [] && AllMessages(msgs) && Cut(pieces, msgs, had)
    requires (had == [] || msgs != []) && m.frag == if had == [] then None else Awaiting(msgs[0], had)
    ensures var d := Dissected(m, Bytes(pieces[0]), num, false);
            && Unlabelled(d.messages) + left == msgs && (begun == [] || left != [])
            && d.memory.frag == if begun == [] then None else Awaiting(left[0], begun)
    ensures AllMessages(left) && Cut(pieces[1..], left, begun)
  {
    if pieces[0].Start? {
      left, begun := StartPiece(m, num, pieces, msgs, had);
    } else {
      left, begun := ContinuePiece(m, num, pieces, msgs, had);
    }
  }

  /** Reassembly inverts segmentation: however valid messages are cut, exactly they are shown, in order,
      and no fragment is left over. */
  lemma {:induction false} ReassemblyInvertsSegmentation(
      m: Memory, first: nat, pieces: seq<Piece>, msgs: seq<seq<Byte>>, had: seq<Byte>)
    requires AllMessages(msgs) && Cut(pieces, msgs, had) && (had == [] || msgs != [])
    requires m.frag == if had == [] then None else Awaiting(msgs[0], had)
    ensures var (m', shown) := Capture(m, first, Segments(pieces));
            AllBytes(shown) == msgs && m'.frag == None
    decreases |pieces|
  {
    if pieces != [] {
      CaptureOne(m, first, pieces);
      var left, begun := PieceDissected(m, first, pieces, msgs, had);
      ReassemblyInvertsSegmentation(
        Dissected(m, Bytes(pieces[0]), first, false).memory, first + 1, pieces[1..], left, begun);
    }
  }

  // ---- Labels and second visits ----

  predicate RightlyLabelled(ls: seq<Labelled>) {
    forall i :: 0 <= i < |ls| ==> ls[i].isReply == IsReply(ls[i].bytes)
  }

  predicate AllReply(ms: seq<seq<Byte>>, bit: bool) {
    forall i :: 0 <= i < |ms| ==> IsReply(ms[i]) == bit
  }

  lemma LabelsAgree(ms: seq<seq<Byte>>, bit: bool)
    ensures RightlyLabelled(LabelAll(ms, bit)) <==> AllReply(ms, bit)
  {
    var ls := LabelAll(ms, bit);
    if RightlyLabelled(ls) {
      forall i | 0 <= i < |ms| ensures IsReply(ms[i]) == bit {
        assert ls[i].isReply == IsReply(ls[i].bytes);
      }
    }
  }

  lemma StartAgain(m: Memory, num: nat, whole: seq<seq<Byte>>, part: seq<Byte>, next: seq<Byte>)
    requires whole != [] && AllMessages(whole) && (part == [] || Begins(part, next))
    requires num in m.states && (m.states[num].FullMsg? || m.states[num].FragHdr?)
    ensures Dissected(m, Bytes(Start(whole, part)), num, true).messages == LabelAll(whole, m.states[num].isReply)
  {
    var tv := Bytes(Start(whole, part));
    assert tv[0..] == tv;
    ScanFindsPieces(tv, 0, whole, part, next);
  }

  lemma StartNotEmpty(whole: seq<seq<Byte>>, part: seq<Byte>)
    requires whole != [] && AllMessages(whole)
    ensures Bytes(Start(whole, part)) != []
  {
    assert IsMessage(whole[0]);
    assert Bytes(Start(whole, part)) == whole[0] + (Join(whole[1..]) + part);
  }

  /** In a segment with several whole messages each is labelled by the first one's reply bit, and on a
      second visit, if the segment also begins another message, by that one's: so the labels are right
      if and only if those bits agree. */
  lemma WhenLabelsAreRight(m: Memory, num: nat, whole: seq<seq<Byte>>, part: seq<Byte>,
                           next: seq<Byte>)
    requires m.frag == None && whole != [] && AllMessages(whole)
    requires part == [] || Begins(part, next)
    ensures var tv := Bytes(Start(whole, part));
            var d := Dissected(m, tv, num, false);
            var again := Dissected(d.memory, tv, num, true);
            && Unlabelled(d.messages) == Unlabelled(again.messages) == whole
            && (RightlyLabelled(d.messages) <==> AllReply(whole, IsReply(whole[0])))
            && (RightlyLabelled(again.messages) <==> AllReply(whole, IsReply(if part == [] then whole[0] else next)))
  {
    hide Dissected, Bytes, RightlyLabelled, AllReply, IsReply, Join, AllMessages, Begins;
    StartNotEmpty(whole, part);
    StartDissected(m, num, whole, part, next);
    StartAgain(Dissected(m, Bytes(Start(whole, part)), num, false).memory, num, whole, part, next);
    LabelsAgree(whole, IsReply(whole[0]));
    LabelsAgree(whole, IsReply(if part == [] then whole[0] else next));
  }

  lemma OtherSegmentKept(m: Memory, tv: seq<Byte>, num: nat, other: nat)
    requires other != num && other in m.states
    ensures var m' := Dissected(m, tv, num, false).memory; other in m'.states && m'.states[other] == m.states[other]
  {
    hide ScanFrom, SizeAt, ReplyAt, LabelAll;
  }

  lemma {:induction false} OtherSegmentsKept(m: Memory, first: nat, tvs: seq<seq<Byte>>, num: nat)
    requires num < first && num in m.states
    ensures num in Capture(m, first, tvs).0.states && Capture(m, first, tvs).0.states[num] == m.states[num]
    decreases |tvs|
  {
    if tvs != [] {
      OtherSegmentKept(m, tvs[0], first, num);
      hide Dissected;
      OtherSegmentsKept(Dissected(m, tvs[0], first, false).memory, first + 1, tvs[1..], num);
    }
  }

  lemma OwnState(m: Memory, tv: seq<Byte>, num: nat)
    ensures num in Dissected(m, tv, num, false).memory.states
  {
    hide ScanFrom, SizeAt, ReplyAt, LabelAll;
  }

  lemma SecondLook(m: Memory, tv: seq<Byte>, num: nat, later: Memory)
    requires num in later.states && num in Dissected(m, tv, num, false).memory.states
    requires later.states[num] == Dissected(m, tv, num, false).memory.states[num]
    ensures var d := Dissected(later, tv, num, true);
            d.memory == later && Unlabelled(d.messages) == Unlabelled(Dissected(m, tv, num, false).messages)
  {
    hide ScanFrom, SizeAt, ReplyAt;
  }

  lemma CaptureFirst(m: Memory, first: nat, tvs: seq<seq<Byte>>)
    requires tvs != []
    ensures var d := Dissected(m, tvs[0], first, false);
            var (m', shown) := Capture(m, first, tvs);
            var (m'', rest) := Capture(d.memory, first + 1, tvs[1..]);
            m' == m'' && shown == [d.messages] + rest
  {
    hide Dissected;
  }

  lemma {:induction false} RevisitFirst(m: Memory, first: nat, tvs: seq<seq<Byte>>)
    requires tvs != []
    ensures var (m', shown) := Capture(m, first, tvs);
            var d := Dissected(m', tvs[0], first, true);
            && |shown| == |tvs| && d.memory == m' && Unlabelled(d.messages) == Unlabelled(shown[0])
  {
    var d := Dissected(m, tvs[0], first, false);
    hide Dissected, Unlabelled, Capture;
    CaptureFirst(m, first, tvs);
    OwnState(m, tvs[0], first);
    OtherSegmentsKept(d.memory, first + 1, tvs[1..], first);
    SecondLook(m, tvs[0], first, Capture(m, first, tvs).0);
  }

  /** Any segment of any capture, visited again, shows the same bytes as the first time, and changes
      nothing that is remembered. */
  lemma {:induction false} RevisitShowsTheSame(m: Memory, first: nat, tvs: seq<seq<Byte>>, k: nat)
    requires k < |tvs|
    ensures var (m', shown) := Capture(m, first, tvs);
            var d := Dissected(m', tvs[k], first + k, true);
            && |shown| == |tvs|
            && d.memory == m' && Unlabelled(d.messages) == Unlabelled(shown[k])
    decreases |tvs|
  {
    hide Dissected, Unlabelled, Capture;
    CaptureFirst(m, first, tvs);
    if k == 0 {
      RevisitFirst(m, first, tvs);
    } else {
      RevisitShowsTheSame(Dissected(m, tvs[0], first, false).memory, first + 1, tvs[1..], k - 1);
      assert tvs[1..][k - 1] == tvs[k];
    }
  }

  // ---- The code ----

  class Dissector {
    var packetStates: map<nat, PacketState>
    var fragHdr: Option<Frag>

    ghost function State(): Memory
      reads this
    {
      Memory(packetStates, fragHdr)
    }

    constructor ()
      ensures State() == Memory(map[], None)
    {
      packetStates, fragHdr := map[], None;
    }

    /** process_msg_frags. */
    method ProcessMsgFrags(tv: seq<Byte>, num: nat, visited: bool)
      modifies this
      ensures State() == if visited then old(State()) else Remembered(old(State()), tv, num)
    {
      if visited {
        return;
      }
      if fragHdr.Some? && fragHdr.value.expected > |fragHdr.value.buffer| {
        var f := fragHdr.value.(buffer := fragHdr.value.buffer + tv);
        if |f.buffer| >= f.expected {
          packetStates := packetStates[num := Reassembled(f.buffer, f.expected, f.isReply)];
          fragHdr := None;
        } else {
          packetStates := packetStates[num := FragMsg(f.expected, f.isReply)];
          fragHdr := Some(f);
        }
        return;
      }
      if |tv| == 0 {
        packetStates := packetStates[num := ZeroLen];
      } else if |tv| < HEADER {
        packetStates := packetStates[num := SubLen];
      } else {
        var size, reply := SizeAt(tv, 0), ReplyAt(tv, 0);
        if |tv| < size && size <= MAX_SIZE {
          packetStates := packetStates[num := FragHdr(size, reply)];
          fragHdr := Some(Frag(tv, size, reply));
        } else {
          packetStates := packetStates[num := FullMsg(reply)];
        }
      }
    }

    /** A message that begins in this segment and does not end in it. */
    method BeginFragment(tv: seq<Byte>, num: nat, visited: bool, offset: nat)
      requires num in packetStates && offset + HEADER <= |tv|
      modifies this
      ensures State() == Begun(old(State()), tv, num, visited, offset)
    {
      if !visited && packetStates[num].FullMsg? {
        var size, reply := SizeAt(tv, offset), ReplyAt(tv, offset);
        packetStates := packetStates[num := FragHdr(size, reply)];
        fragHdr := Some(Frag(tv[offset..], size, reply));
      }
    }

    /** The loop of the dissector: where it stops, and whether it has met a header. */
    method ScanLoop(tv: seq<Byte>, num: nat, visited: bool, isReply: bool)
      returns (messages: seq<Labelled>, note: Note, offset: nat, hdrLocked: bool)
      requires num in packetStates
      modifies this
      ensures var r, m := ScanFrom(tv, 0), old(State());
              && messages == LabelAll(r.messages, isReply) && offset == r.stop && hdrLocked == r.locked
              && note == (if r.tail.Some? then Fragment else Nothing)
              && State() == if r.tail.Some? then Begun(m, tv, num, visited, r.tail.value) else m
    {
      offset, hdrLocked := 0, false;
      messages, note := [], Nothing;
      ghost var all, found := ScanFrom(tv, 0), [];
      assert LabelAll(found, isReply) == [] && Continues(all, found, false, all);
      hide ScanFrom, HeaderOk, SizeAt, ReplyAt, LabelAll, Begun, Continues;
      while offset < |tv|
        invariant offset <= |tv| && State() == old(State()) && note == Nothing
        invariant Continues(all, found, hdrLocked, ScanFrom(tv, offset))
        invariant messages == LabelAll(found, isReply)
      {
        var received := |tv| - offset;
        if received < HEADER {
          ScanEnds(tv, offset, all, found, hdrLocked);
          return;
        }
        ScanTurn(tv, offset, all, found, hdrLocked);
        if !HeaderOk(tv, offset) {
          offset := offset + 1;
        } else {
          hdrLocked := true;
          var size := SizeAt(tv, offset);
          if received < size {
            BeginFragment(tv, num, visited, offset);
            note := Fragment;
            offset := offset + received;
            return;
          }
          var next := offset + size;
          var bytes := tv[offset..next];
          messages := messages + [Labelled(bytes, isReply)];
          LabelSnoc(found, bytes, isReply);
          found := found + [bytes];
          offset := next;
        }
      }
      ScanEnds(tv, offset, all, found, hdrLocked);
    }

    /** The loop and what follows it. */
    method ScanSegment(tv: seq<Byte>, num: nat, visited: bool, isReply: bool)
      returns (messages: seq<Labelled>, note: Note, consumed: nat)
      requires num in packetStates
      modifies this
      ensures Dissection(State(), messages, note, consumed) == Scanned(old(State()), tv, num, visited, isReply)
    {
      hide ScanFrom, LabelAll, Begun;
      var hdrLocked;
      messages, note, consumed, hdrLocked := ScanLoop(tv, num, visited, isReply);
      if !hdrLocked && consumed > 0 {
        note, consumed := Gap, |tv|;
      }
    }

    /** The dissector. */
    method Dissect(tv: seq<Byte>, num: nat, visited: bool)
      returns (messages: seq<Labelled>, note: Note, consumed: nat)
      modifies this
      ensures Dissection(State(), messages, note, consumed) == Dissected(old(State()), tv, num, visited)
    {
      ProcessMsgFrags(tv, num, visited);
      if num !in packetStates || packetStates[num].ZeroLen? {
        return [], Gap, 0;
      }
      match packetStates[num] {
        case Reassembled(buffer, length, isReply) =>
          return [Labelled(Prefix(buffer, length), isReply)], Nothing, |tv|;
        case FragMsg(_, _) =>
          return [], Fragment, |tv|;
        case SubLen => messages, note, consumed := ScanSegment(tv, num, visited, false);
        case FullMsg(isReply) => messages, note, consumed := ScanSegment(tv, num, visited, isReply);
        case FragHdr(_, isReply) => messages, note, consumed := ScanSegment(tv, num, visited, isReply);
      }
    }
  }
}
