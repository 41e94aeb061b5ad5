/** Which bytes the dissector takes for a message (tools/net/vfio_user.lua), with the header built from its
    fields: what is recognised, how it is labelled, and what is swallowed without being recognised. */
module VfioMessages {
  import opened Protocol
  import opened VfioUser
  import DeviceWords

  /** A vfio-user message: id and command in two bytes each, then size, flags and error in four, all
      little-endian, then the body. */
  function Built(id: U16, cmd: U16, size: U32, flags: U32, err: U32, body: seq<Byte>): (b: seq<Byte>)
    ensures |b| == 16 + |body|
  {
    [id % 0x100, id / 0x100, cmd % 0x100, cmd / 0x100] + DeviceWords.Little(size) + DeviceWords.Little(flags)
    + DeviceWords.Little(err) + body
  }

  /** The commands and sizes the protocol has. */
  predicate Known(cmd: U16, size: nat) {
    1 <= cmd <= 18 && cmd != 14 && 16 <= size <= 1048576
  }

  lemma TwoLittle(x: U16)
    ensures FromLe([x % 0x100, x / 0x100]) == x
  {
    var s: seq<Byte> := [x % 0x100, x / 0x100];
    assert s[1..] == [x / 0x100] && s[1..][1..] == [];
    assert FromLe(s[1..]) == x / 0x100;
  }

  lemma FourLittle(x: U32)
    ensures FromLe(DeviceWords.Little(x)) == x
  {
    FieldSizes();
    DeviceWords.WordBytes(x);
    LeRoundTrip(x, 4);
  }

  lemma BuiltParts(id: U16, cmd: U16, size: U32, flags: U32, err: U32, body: seq<Byte>)
    ensures var b := Built(id, cmd, size, flags, err, body);
            && b[2..4] == [cmd % 0x100, cmd / 0x100]
            && b[4..8] == DeviceWords.Little(size) && b[8..12] == DeviceWords.Little(flags)
  {
    hide DeviceWords.Little;
  }

  /** The fields the dissector reads are those the header was built from, wherever it stands. */
  lemma FieldsAre(tv: seq<Byte>, at: nat, id: U16, cmd: U16, size: U32, flags: U32, err: U32)
    requires at + 16 <= |tv| && tv[at..at + 16] == Built(id, cmd, size, flags, err, [])
    ensures CmdAt(tv, at) == cmd && SizeAt(tv, at) == size && (ReplyAt(tv, at) <==> flags % 2 == 1)
  {
    var b := Built(id, cmd, size, flags, err, []);
    BuiltParts(id, cmd, size, flags, err, []);
    TwoLittle(cmd);
    FourLittle(size);
    FourLittle(flags);
    hide Built, DeviceWords.Little, FromLe;
    assert b[0..16] == b;
    FieldsOfPrefix(tv, at, b);
  }

  /** Wherever sixteen bytes stand in a segment: they are taken for a header exactly when they carry a
      command from 1 to 18 other than 14 and a size from 16 to 1048576. Otherwise the scan tries again one
      byte further. */
  lemma {:induction false} HeaderTakenIff(tv: seq<Byte>, at: nat, id: U16, cmd: U16, size: U32, flags: U32, err: U32)
    requires at + 16 <= |tv| && tv[at..at + 16] == Built(id, cmd, size, flags, err, [])
    ensures HeaderOk(tv, at) <==> 1 <= cmd <= 18 && cmd != 14 && 16 <= size <= 1048576
    ensures !Known(cmd, size) ==> ScanFrom(tv, at) == ScanFrom(tv, at + 1)
    ensures Known(cmd, size) && at + size > |tv| ==> ScanFrom(tv, at) == Scan([], Some(at), |tv|, true)
    ensures Known(cmd, size) && at + size <= |tv| ==>
              ScanFrom(tv, at).messages == [tv[at..at + size]] + ScanFrom(tv, at + size).messages
  {
    FieldsAre(tv, at, id, cmd, size, flags, err);
    hide CmdAt, SizeAt, ReplyAt, Built;
  }

  lemma TwoSpelled(b0: Byte, b1: Byte) returns (x: U16)
    ensures x % 0x100 == b0 && x / 0x100 == b1
  {
    x := b0 as nat + 0x100 * b1 as nat;
  }

  lemma Quarters(b: seq<Byte>)
    requires |b| == 16
    ensures b == [b[0], b[1], b[2], b[3]] + b[4..8] + b[8..12] + b[12..16]
  {
  }

  /** Any sixteen bytes are built from some fields. */
  lemma EveryHeaderIsBuilt(b: seq<Byte>)
    returns (id: U16, cmd: U16, size: U32, flags: U32, err: U32)
    requires |b| == 16
    ensures b == Built(id, cmd, size, flags, err, [])
  {
    id := TwoSpelled(b[0], b[1]);
    cmd := TwoSpelled(b[2], b[3]);
    DeviceWords.SpelledBytes(b, 1);
    DeviceWords.SpelledBytes(b, 2);
    DeviceWords.SpelledBytes(b, 3);
    size, flags, err := DeviceWords.Spelled(b, 1), DeviceWords.Spelled(b, 2), DeviceWords.Spelled(b, 3);
    hide DeviceWords.Little, DeviceWords.Spelled;
    Quarters(b);
  }

  lemma Head(id: U16, cmd: U16, size: U32, flags: U32, err: U32, body: seq<Byte>)
    ensures Built(id, cmd, size, flags, err, body) == Built(id, cmd, size, flags, err, []) + body
    ensures Built(id, cmd, size, flags, err, body)[0..16] == Built(id, cmd, size, flags, err, [])
  {
    hide DeviceWords.Little;
  }

  /** The messages all results about segmentation speak of are exactly these: built with a known command,
      and with their own length, from 16 to 1048576, as size. */
  lemma MessageIffBuilt(id: U16, cmd: U16, size: U32, flags: U32, err: U32, body: seq<Byte>)
    ensures var b := Built(id, cmd, size, flags, err, body);
            && (IsMessage(b) <==> Known(cmd, size) && size == 16 + |body|)
            && (IsReply(b) <==> flags % 2 == 1)
  {
    var b := Built(id, cmd, size, flags, err, body);
    Head(id, cmd, size, flags, err, body);
    FieldsAre(b, 0, id, cmd, size, flags, err);
    hide Built, CmdAt, SizeAt, ReplyAt;
  }

  lemma EveryMessageIsBuilt(b: seq<Byte>)
    returns (id: U16, cmd: U16, flags: U32, err: U32)
    requires IsMessage(b)
    ensures |b| <= 1048576 && b == Built(id, cmd, |b|, flags, err, b[16..]) && Known(cmd, |b|)
  {
    var size;
    id, cmd, size, flags, err := EveryHeaderIsBuilt(b[..16]);
    Head(id, cmd, size, flags, err, b[16..]);
    hide Built;
    assert b == b[..16] + b[16..];
    MessageIffBuilt(id, cmd, size, flags, err, b[16..]);
  }

  /** A segment that is one message of any known command is shown as that message, as a reply exactly when
      bit 0 of its flags is set, and leaves nothing behind. */
  lemma MessageIsShown(m: Memory, num: nat, id: U16, cmd: U16, flags: U32, err: U32, body: seq<Byte>)
    requires m.frag == None && Known(cmd, 16 + |body|)
    ensures var b := Built(id, cmd, 16 + |body|, flags, err, body);
            var d := Dissected(m, b, num, false);
            && d.messages == [Labelled(b, flags % 2 == 1)] && d.memory.frag == None
            && d.note == Nothing && d.consumed == |b|
  {
    var b := Built(id, cmd, 16 + |body|, flags, err, body);
    MessageIffBuilt(id, cmd, 16 + |body|, flags, err, body);
    hide Built, IsMessage, IsReply, Dissected, ScanFrom;
    OneShown(m, num, b);
  }

  lemma OneShown(m: Memory, num: nat, b: seq<Byte>)
    requires m.frag == None && IsMessage(b)
    ensures var d := Dissected(m, b, num, false);
            && d.messages == [Labelled(b, IsReply(b))] && d.memory.frag == None
            && d.note == Nothing && d.consumed == |b|
  {
    assert Join([b]) + [] == b by {
      assert [b][1..] == [];
      assert b + [] == b;
    }
    StartDissected(m, num, [b], [], []);
    StartNoted([b], [], []);
    assert b[0..] == b == Join([b]) + [];
    ScanFindsPieces(b, 0, [b], [], []);
    hide ScanFrom, HeaderOk, SizeAt, ReplyAt, Join, IsMessage;
  }

  // ---- Segments that begin without a message ----

  /** When nothing has been begun, a segment of 16 bytes or more is taken for the beginning of a message
      whenever its bytes 4 to 7 spell more than its length and no more than 1048576, whatever its command:
      all of it is kept, and nothing in it is labelled by anything but bit 0 of its byte 8. */
  lemma AnyLongSizeBeginsOne(m: Memory, num: nat, tv: seq<Byte>, id: U16, cmd: U16, size: U32, flags: U32, err: U32)
    requires m.frag == None && |tv| >= 16 && tv[0..16] == Built(id, cmd, size, flags, err, [])
    requires |tv| < size <= 1048576
    ensures Dissected(m, tv, num, false).memory.frag == Some(Frag(tv, size, flags % 2 == 1))
  {
    FieldsAre(tv, 0, id, cmd, size, flags, err);
    hide Built, ScanFrom, SizeAt, ReplyAt, LabelAll;
  }

  /** So what need not be a message at all is shown as one: the next segment completes it. */
  lemma NoMessageShownAsOne(m: Memory, num: nat, tv: seq<Byte>, next: seq<Byte>,
                            id: U16, cmd: U16, size: U32, flags: U32, err: U32)
    requires m.frag == None && |tv| >= 16 && tv[0..16] == Built(id, cmd, size, flags, err, [])
    requires |tv| < size <= 1048576 && |tv| + |next| >= size
    ensures var d := Dissected(Dissected(m, tv, num, false).memory, next, num + 1, false);
            && d.messages == [Labelled((tv + next)[..size], flags % 2 == 1)] && d.memory.frag == None
            && (IsMessage((tv + next)[..size]) <==> Known(cmd, size))
  {
    AnyLongSizeBeginsOne(m, num, tv, id, cmd, size, flags, err);
    var whole := (tv + next)[..size];
    assert whole[0..16] == tv[0..16];
    FieldsAre(whole, 0, id, cmd, size, flags, err);
    hide Built, ScanFrom, CmdAt, SizeAt, ReplyAt, LabelAll;
  }

  // ---- What is said of a segment ----

  lemma {:induction false} NoHeaderNoMessage(tv: seq<Byte>, at: nat)
    requires at <= |tv| && forall k :: at <= k && k + 16 <= |tv| ==> !HeaderOk(tv, k)
    ensures var r := ScanFrom(tv, at);
            r.messages == [] && r.tail == None && !r.locked && (|tv| < 16 && at == 0 ==> r.stop == 0)
    ensures |tv| - at >= 16 ==> ScanFrom(tv, at).stop > 0
    decreases |tv| - at
  {
    if |tv| - at >= 16 {
      NoHeaderNoMessage(tv, at + 1);
    }
  }

  /** Segments that show nothing and begin nothing: an empty one is a gap of which nothing is consumed; a
      shorter one than a header passes without a note; one in which no header is found, at any offset, and
      whose bytes 4 to 7 do not make it a beginning, is a gap consumed whole. */
  lemma QuietSegments(m: Memory, num: nat, tv: seq<Byte>)
    requires m.frag == None && forall k :: 0 <= k && k + 16 <= |tv| ==> !HeaderOk(tv, k)
    requires |tv| >= 16 ==> !(|tv| < SizeAt(tv, 0) <= 1048576)
    ensures var d := Dissected(m, tv, num, false);
            && d.messages == [] && d.memory.frag == None
            && d.note == (if 0 < |tv| < 16 then Nothing else Gap)
            && d.consumed == (if |tv| < 16 then 0 else |tv|)
  {
    NoHeaderNoMessage(tv, 0);
    hide ScanFrom, HeaderOk, SizeAt, ReplyAt;
  }

  /** Segments of messages: a note only if one is left unfinished, and everything consumed. */
  lemma NotesOnMessages(m: Memory, num: nat, whole: seq<seq<Byte>>, part: seq<Byte>, next: seq<Byte>)
    requires m.frag == None && AllMessages(whole) && Bytes(Start(whole, part)) != []
    requires part == [] || Begins(part, next)
    ensures var tv := Bytes(Start(whole, part)); var d := Dissected(m, tv, num, false);
            d.note == (if part == [] then Nothing else Fragment) && d.consumed == |tv|
  {
    var tv := Bytes(Start(whole, part));
    StartNoted(whole, part, next);
    assert tv[0..] == tv;
    ScanFindsPieces(tv, 0, whole, part, next);
    hide ScanFrom, HeaderOk, SizeAt, ReplyAt, Join, AllMessages, Begins, LabelAll, Noted, Begun;
  }

  /** A segment that goes on with a message already begun. */
  lemma NotesOnFragments(m: Memory, num: nat, tv: seq<Byte>, f: Frag)
    requires m.frag == Some(f) && |f.buffer| < f.expected
    ensures var d := Dissected(m, tv, num, false); var ended := |f.buffer| + |tv| >= f.expected;
            && d.note == (if ended then Nothing else Fragment) && d.consumed == |tv|
            && d.messages == (if ended then [Labelled((f.buffer + tv)[..f.expected], f.isReply)] else [])
            && d.memory.frag == (if ended then None else Some(f.(buffer := f.buffer + tv)))
  {
    hide ScanFrom, HeaderOk, SizeAt, ReplyAt;
  }
}
