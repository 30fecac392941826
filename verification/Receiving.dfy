/** Reading messages off a stream that arrives in chunks: up to a delimiter, or by a size prefix.
    What is read depends on the bytes alone, not on how they are cut into chunks. */
module Receiving {
  import opened Framing
  import opened Sequences

  /** The ways a read ends: a message, or an exception. */
  datatype Verdict = Message(data: Bytes) | TooLong | Eof

  class ReceiveStream {
    /** What is still to arrive. No chunk is empty: an empty one means the end of the stream. */
    var chunks: seq<Bytes>

    ghost predicate Valid()
      reads this
    {
      forall i :: 0 <= i < |chunks| ==> chunks[i] != []
    }

    method ReceiveSome() returns (data: Bytes)
      requires Valid()
      modifies this
      ensures Valid()
      ensures old(chunks) == [] ==> data == [] && chunks == []
      ensures old(chunks) != [] ==> data != [] && data == old(chunks[0]) && chunks == old(chunks[1..])
    {
      if chunks == [] {
        return [];
      }
      data := chunks[0];
      chunks := chunks[1..];
    }
  }

  class ReadBuffer {
    var bytes: Bytes
  }

  /** All bytes from here to the end of the stream. */
  ghost function Ahead(stream: ReceiveStream, buffer: ReadBuffer): Bytes
    reads stream, buffer
  {
    buffer.bytes + Flatten(stream.chunks)
  }

  /** `read_buffer.extend(await receive_some())`, or the end of the stream. */
  method Extend(stream: ReceiveStream, buffer: ReadBuffer) returns (more: bool)
    requires stream.Valid()
    modifies stream, buffer
    ensures stream.Valid() && Ahead(stream, buffer) == old(Ahead(stream, buffer))
    ensures old(buffer.bytes) <= buffer.bytes
    ensures more ==> |stream.chunks| < old(|stream.chunks|)
    ensures !more ==> stream.chunks == [] && buffer.bytes == old(buffer.bytes)
  {
    var data := stream.ReceiveSome();
    if data == [] {
      return false;
    }
    ghost var rest := Flatten(stream.chunks);
    assert old(buffer.bytes) + (data + rest) == (old(buffer.bytes) + data) + rest;
    buffer.bytes := buffer.bytes + data;
    more := true;
  }

  // ----- the delimiter

  /** The verdict that the bytes determine: the first delimiter decides, and a message of at most
      maxSize bytes before it is accepted. */
  function UntilVerdict(t: Bytes, d: Bytes, maxSize: nat, returnDelimiter: bool): Verdict {
    var i := Find(t, d, 0);
    if 0 <= i <= maxSize then Message(t[..if returnDelimiter then i + |d| else i])
    else if i >= 0 || |t| > maxSize + |d| then TooLong
    else Eof
  }

  /** What is left to read afterwards. */
  function UntilLeft(t: Bytes, d: Bytes, maxSize: nat): Bytes {
    var i := Find(t, d, 0);
    if 0 <= i <= maxSize then t[i + |d|..] else t
  }

  /** What a read up to a delimiter is to answer and to leave, in terms of the bytes: a message exactly if a
      delimiter starts within maxSize bytes, and then the bytes up to the first one; the end of the stream
      exactly if no delimiter comes and no more than maxSize bytes and a delimiter's length are left. */
  ghost predicate ReadsUntil(t: Bytes, d: Bytes, maxSize: nat, returnDelimiter: bool, v: Verdict, left: Bytes) {
    && (v.Message? <==> exists i: nat :: i <= maxSize && OccursAt(t, d, i))
    && (v.Eof? <==> |t| <= maxSize + |d| && forall i: nat :: !OccursAt(t, d, i))
    && (v.Message? ==>
          exists i: nat ::
            && OccursAt(t, d, i) && (forall k: nat :: k < i ==> !OccursAt(t, d, k))
            && v.data == t[..if returnDelimiter then i + |d| else i] && left == t[i + |d|..])
    && (!v.Message? ==> left == t)
  }

  lemma UntilExactlyWhen(t: Bytes, d: Bytes, maxSize: nat, returnDelimiter: bool)
    ensures ReadsUntil(t, d, maxSize, returnDelimiter, UntilVerdict(t, d, maxSize, returnDelimiter), UntilLeft(t, d, maxSize))
  {
    var i := Find(t, d, 0);
    if i >= 0 {
      assert OccursAt(t, d, i);
      assert forall k: nat :: k < i ==> !OccursAt(t, d, k);
    }
  }

  lemma PrefixOccurs(t: Bytes, more: Bytes, d: Bytes, k: nat)
    ensures OccursAt(t, d, k) ==> OccursAt(t + more, d, k)
    ensures OccursAt(t + more, d, k) && k + |d| <= |t| ==> OccursAt(t, d, k)
  {
    if k + |d| <= |t| { assert (t + more)[k..k + |d|] == t[k..k + |d|]; }
  }

  /** A delimiter found in what has arrived is the first in all bytes. */
  lemma FoundEarly(t: Bytes, more: Bytes, d: Bytes, i: nat)
    requires OccursAt(t, d, i) && forall k :: 0 <= k < i ==> !OccursAt(t, d, k)
    ensures Find(t + more, d, 0) == i
  {
    PrefixOccurs(t, more, d, i);
    var r := Find(t + more, d, 0);
    if 0 <= r < i { PrefixOccurs(t, more, d, r); }
  }

  /** Where the resumed search starts, it has skipped no delimiter. */
  lemma NoneStraddles(before: Bytes, after: Bytes, d: Bytes, next: nat)
    requires before <= after && forall k :: 0 <= k ==> !OccursAt(before, d, k)
    requires next == if |before| - |d| + 1 > 0 then |before| - |d| + 1 else 0
    ensures forall k :: 0 <= k < next ==> !OccursAt(after, d, k)
  {
    assert after == before + after[|before|..];
    forall k | 0 <= k < next ensures !OccursAt(after, d, k) {
      PrefixOccurs(before, after[|before|..], d, k);
    }
  }

  method ReceiveUntil(stream: ReceiveStream, buffer: ReadBuffer, d: Bytes, maxSize: nat, returnDelimiter: bool)
    returns (v: Verdict)
    requires stream.Valid()
    modifies stream, buffer
    ensures stream.Valid()
    ensures v == UntilVerdict(old(Ahead(stream, buffer)), d, maxSize, returnDelimiter)
    ensures Ahead(stream, buffer) == UntilLeft(old(Ahead(stream, buffer)), d, maxSize)
    ensures ReadsUntil(old(Ahead(stream, buffer)), d, maxSize, returnDelimiter, v, Ahead(stream, buffer))
  {
    hide ReadsUntil;
    ghost var t := Ahead(stream, buffer);
    UntilExactlyWhen(t, d, maxSize, returnDelimiter);
    var nextFindIndex: nat := 0;
    var max := maxSize + |d|;
    var terminatorIndex := Find(buffer.bytes, d, nextFindIndex);
    while terminatorIndex < 0
      invariant stream.Valid() && Ahead(stream, buffer) == t
      invariant terminatorIndex == Find(buffer.bytes, d, nextFindIndex)
      invariant forall k :: 0 <= k < nextFindIndex ==> !OccursAt(buffer.bytes, d, k)
      decreases |stream.chunks| + (if terminatorIndex < 0 then 1 else 0)
    {
      ghost var before := buffer.bytes;
      if |buffer.bytes| > max {
        NotFoundEarly(before, Flatten(stream.chunks), d, maxSize);
        return TooLong;
      }
      nextFindIndex := if |buffer.bytes| - |d| + 1 > 0 then |buffer.bytes| - |d| + 1 else 0;
      var more := Extend(stream, buffer);
      if !more {
        assert t == before + [] == before;
        return Eof;
      }
      NoneStraddles(before, buffer.bytes, d, nextFindIndex);
      terminatorIndex := Find(buffer.bytes, d, nextFindIndex);
    }
    FoundEarly(buffer.bytes, Flatten(stream.chunks), d, terminatorIndex);
    var messageLen := terminatorIndex + |d|;
    if messageLen > max {
      return TooLong;
    }
    var message := buffer.bytes[..if returnDelimiter then messageLen else terminatorIndex];
    SlicesOfConcat(buffer.bytes, Flatten(stream.chunks), terminatorIndex);
    SlicesOfConcat(buffer.bytes, Flatten(stream.chunks), messageLen);
    buffer.bytes := buffer.bytes[messageLen..];
    v := Message(message);
  }

  lemma SlicesOfConcat(a: Bytes, b: Bytes, n: nat)
    requires n <= |a|
    ensures (a + b)[..n] == a[..n] && (a + b)[n..] == a[n..] + b
  {
  }

  /** More than maxSize plus a delimiter of bytes without a delimiter: wherever the first one may come,
      the message is too long. */
  lemma NotFoundEarly(t: Bytes, more: Bytes, d: Bytes, maxSize: nat)
    requires |t| > maxSize + |d| && forall k :: 0 <= k ==> !OccursAt(t, d, k)
    ensures var i := Find(t + more, d, 0); i == -1 || i > maxSize
  {
    var i := Find(t + more, d, 0);
    if 0 <= i <= maxSize { PrefixOccurs(t, more, d, i); }
  }

  // ----- the size prefix

  function PrefixedVerdict(t: Bytes, maxSize: nat): Verdict {
    if |t| < HEADER_LEN then Eof
    else if Announced(t) > maxSize then TooLong
    else if Complete(t) then Message(FirstFrame(t))
    else Eof
  }

  /** A header that was read is gone, even when the message does not arrive. */
  function PrefixedLeft(t: Bytes, maxSize: nat): Bytes {
    if |t| < HEADER_LEN || Announced(t) > maxSize then t
    else if Complete(t) then AfterFirst(t)
    else t[HEADER_LEN..]
  }

  /** What a read by size prefix is to answer and to leave: nothing without a header; then, the size that the
      header announces decides. A header that was accepted is gone. */
  predicate ReadsPrefixed(t: Bytes, maxSize: nat, v: Verdict, left: Bytes) {
    if |t| < 4 then v == Eof && left == t
    else
      var n := FromU32(t[..4]);
      && (v.TooLong? <==> n > maxSize)
      && (v.Eof? <==> n <= maxSize && |t| < 4 + n)
      && (v.Message? <==> n <= maxSize && |t| >= 4 + n)
      && (v.Message? ==> v.data == t[4..4 + n])
      && left == if v.TooLong? then t else if v.Eof? then t[4..] else t[4 + n..]
  }

  lemma PrefixedExactlyWhen(t: Bytes, maxSize: nat)
    ensures ReadsPrefixed(t, maxSize, PrefixedVerdict(t, maxSize), PrefixedLeft(t, maxSize))
  {
  }

  /** Reads chunks until n bytes have arrived. */
  method FillTo(stream: ReceiveStream, buffer: ReadBuffer, n: nat) returns (ok: bool)
    requires stream.Valid()
    modifies stream, buffer
    ensures stream.Valid() && Ahead(stream, buffer) == old(Ahead(stream, buffer))
    ensures ok <==> |old(Ahead(stream, buffer))| >= n
    ensures ok ==> |buffer.bytes| >= n
    ensures !ok ==> stream.chunks == [] && buffer.bytes == old(Ahead(stream, buffer))
  {
    while |buffer.bytes| < n
      invariant stream.Valid() && Ahead(stream, buffer) == old(Ahead(stream, buffer))
      decreases |stream.chunks| + (if |buffer.bytes| < n then 1 else 0)
    {
      var more := Extend(stream, buffer);
      if !more {
        assert buffer.bytes + [] == buffer.bytes;
        return false;
      }
    }
    ok := true;
  }

  method ReceiveSizePrefixed(stream: ReceiveStream, buffer: ReadBuffer, maxSize: nat) returns (v: Verdict)
    requires stream.Valid()
    modifies stream, buffer
    ensures stream.Valid()
    ensures v == PrefixedVerdict(old(Ahead(stream, buffer)), maxSize)
    ensures Ahead(stream, buffer) == PrefixedLeft(old(Ahead(stream, buffer)), maxSize)
    ensures ReadsPrefixed(old(Ahead(stream, buffer)), maxSize, v, Ahead(stream, buffer))
  {
    hide ReadsPrefixed, FromU32, FirstFrame, AfterFirst;
    PrefixedExactlyWhen(Ahead(stream, buffer), maxSize);
    ghost var t := Ahead(stream, buffer);
    var ok := FillTo(stream, buffer, HEADER_LEN);
    if !ok {
      return Eof;
    }
    var messageLen := FromU32(buffer.bytes[..HEADER_LEN]);
    assert buffer.bytes[..HEADER_LEN] == t[..HEADER_LEN];
    if messageLen > maxSize {
      return TooLong;
    }
    SlicesOfConcat(buffer.bytes, Flatten(stream.chunks), HEADER_LEN);
    buffer.bytes := buffer.bytes[HEADER_LEN..];
    ok := FillTo(stream, buffer, messageLen);
    if !ok {
      return Eof;
    }
    var result := buffer.bytes[..messageLen];
    FrameArrived(t, buffer.bytes, Flatten(stream.chunks));
    buffer.bytes := buffer.bytes[messageLen..];
    v := Message(result);
  }

  lemma FrameArrived(t: Bytes, arrived: Bytes, more: Bytes)
    requires |t| >= HEADER_LEN && t[HEADER_LEN..] == arrived + more && |arrived| >= Announced(t)
    ensures Complete(t) && FirstFrame(t) == arrived[..Announced(t)]
    ensures AfterFirst(t) == arrived[Announced(t)..] + more
  {
    hide FromU32;
    SlicesOfConcat(arrived, more, Announced(t));
    assert FirstFrame(t) == t[HEADER_LEN..][..Announced(t)];
    assert AfterFirst(t) == t[HEADER_LEN..][Announced(t)..];
  }

  // ----- reading until the end

  /** Which of the two readers a connection uses. */
  datatype Reader = Until(delimiter: Bytes) | Prefixed

  function VerdictOf(r: Reader, t: Bytes, maxSize: nat): Verdict {
    match r
    case Until(d) => UntilVerdict(t, d, maxSize, true)
    case Prefixed => PrefixedVerdict(t, maxSize)
  }

  function LeftOf(r: Reader, t: Bytes, maxSize: nat): Bytes {
    match r
    case Until(d) => UntilLeft(t, d, maxSize)
    case Prefixed => PrefixedLeft(t, maxSize)
  }

  predicate Progresses(r: Reader) {
    r.Until? ==> r.delimiter != []
  }

  lemma MessagesShrink(r: Reader, t: Bytes, maxSize: nat)
    ensures Progresses(r) && VerdictOf(r, t, maxSize).Message? ==> |LeftOf(r, t, maxSize)| < |t|
  {
  }

  /** The messages of repeated reads. */
  function Messages(r: Reader, t: Bytes, maxSize: nat): seq<Bytes>
    requires Progresses(r)
    decreases |t|
  {
    var v := VerdictOf(r, t, maxSize);
    if v.Message? then
      MessagesShrink(r, t, maxSize);
      [v.data] + Messages(r, LeftOf(r, t, maxSize), maxSize)
    else []
  }

  /** The bytes ahead when a read first raises. */
  function AtEnd(r: Reader, t: Bytes, maxSize: nat): Bytes
    requires Progresses(r)
    decreases |t|
  {
    if VerdictOf(r, t, maxSize).Message? then
      MessagesShrink(r, t, maxSize);
      AtEnd(r, LeftOf(r, t, maxSize), maxSize)
    else t
  }

  /** No acceptable message starts these bytes; `end` is what a read of them answers. */
  ghost predicate Exhausted(r: Reader, t: Bytes, maxSize: nat, end: Verdict) {
    match r
    case Until(d) =>
      && (forall i: nat :: i <= maxSize ==> !OccursAt(t, d, i))
      && end == if |t| <= maxSize + |d| && (forall i: nat :: !OccursAt(t, d, i)) then Eof else TooLong
    case Prefixed =>
      && (|t| >= 4 ==> FromU32(t[..4]) > maxSize || |t| < 4 + FromU32(t[..4]))
      && end == if |t| >= 4 && FromU32(t[..4]) > maxSize then TooLong else Eof
  }

  /** Reading stops only where no acceptable message comes. */
  lemma {:induction false} StopsOnlyWhen(r: Reader, t: Bytes, maxSize: nat)
    requires Progresses(r)
    ensures var e := AtEnd(r, t, maxSize); Exhausted(r, e, maxSize, VerdictOf(r, e, maxSize))
    decreases |t|
  {
    if VerdictOf(r, t, maxSize).Message? {
      MessagesShrink(r, t, maxSize);
      StopsOnlyWhen(r, LeftOf(r, t, maxSize), maxSize);
    } else {
      match r
      case Until(d) => UntilExactlyWhen(t, d, maxSize, true);
      case Prefixed => PrefixedExactlyWhen(t, maxSize);
    }
  }

  method ReadOne(stream: ReceiveStream, buffer: ReadBuffer, r: Reader, maxSize: nat) returns (v: Verdict)
    requires stream.Valid()
    modifies stream, buffer
    ensures stream.Valid()
    ensures v == VerdictOf(r, old(Ahead(stream, buffer)), maxSize)
    ensures Ahead(stream, buffer) == LeftOf(r, old(Ahead(stream, buffer)), maxSize)
  {
    match r
    case Until(d) => v := ReceiveUntil(stream, buffer, d, maxSize, true);
    case Prefixed => v := ReceiveSizePrefixed(stream, buffer, maxSize);
  }

  lemma MessagesNext(done: seq<Bytes>, r: Reader, t: Bytes, maxSize: nat)
    requires Progresses(r) && VerdictOf(r, t, maxSize).Message?
    ensures var v, left := VerdictOf(r, t, maxSize), LeftOf(r, t, maxSize);
            && done + Messages(r, t, maxSize) == done + [v.data] + Messages(r, left, maxSize)
            && AtEnd(r, t, maxSize) == AtEnd(r, left, maxSize)
            && |left| < |t|
  {
    MessagesShrink(r, t, maxSize);
  }

  /** The read loop of a connection, up to the exception that ends it. */
  method ReadToChannel(stream: ReceiveStream, buffer: ReadBuffer, r: Reader, maxSize: nat)
    returns (messages: seq<Bytes>, end: Verdict)
    requires stream.Valid() && Progresses(r)
    modifies stream, buffer
    ensures messages == Messages(r, old(Ahead(stream, buffer)), maxSize)
    ensures end == VerdictOf(r, AtEnd(r, old(Ahead(stream, buffer)), maxSize), maxSize) && !end.Message?
    ensures Exhausted(r, AtEnd(r, old(Ahead(stream, buffer)), maxSize), maxSize, end)
  {
    hide Exhausted;
    StopsOnlyWhen(r, Ahead(stream, buffer), maxSize);
    messages := [];
    ghost var t := Ahead(stream, buffer);
    while true
      invariant stream.Valid()
      invariant Messages(r, t, maxSize) == messages + Messages(r, Ahead(stream, buffer), maxSize)
      invariant AtEnd(r, t, maxSize) == AtEnd(r, Ahead(stream, buffer), maxSize)
      decreases |Ahead(stream, buffer)|
    {
      ghost var now := Ahead(stream, buffer);
      end := ReadOne(stream, buffer, r, maxSize);
      if !end.Message? {
        return;
      }
      MessagesNext(messages, r, now, maxSize);
      messages := messages + [end.data];
    }
  }

  // ----- what the messages are

  /** A message with its delimiter: of acceptable size, and no delimiter before its end. */
  predicate Delimited(m: Bytes, d: Bytes, maxSize: nat) {
    Find(m, d, 0) >= 0 && Find(m, d, 0) + |d| == |m| <= maxSize + |d|
  }

  lemma PrefixFind(t: Bytes, d: Bytes, i: nat)
    requires Find(t, d, 0) == i
    ensures Find(t[..i + |d|], d, 0) == i
  {
    var m := t[..i + |d|];
    assert t == m + t[i + |d|..];
    PrefixOccurs(m, t[i + |d|..], d, i);
    var r := Find(m, d, 0);
    if 0 <= r < i { PrefixOccurs(m, t[i + |d|..], d, r); }
  }

  lemma FirstDelimited(t: Bytes, d: Bytes, maxSize: nat)
    requires UntilVerdict(t, d, maxSize, true).Message?
    ensures UntilVerdict(t, d, maxSize, true).data + UntilLeft(t, d, maxSize) == t
    ensures Delimited(UntilVerdict(t, d, maxSize, true).data, d, maxSize)
  {
    var i := Find(t, d, 0);
    var m := t[..i + |d|];
    PrefixFind(t, d, i);
    assert Delimited(m, d, maxSize);
    assert m + t[i + |d|..] == t;
  }

  /** Read up to a delimiter, the messages with what is left are the bytes. */
  lemma {:induction false} DelimitedReassemble(t: Bytes, d: Bytes, maxSize: nat)
    requires d != []
    ensures Flatten(Messages(Until(d), t, maxSize)) + AtEnd(Until(d), t, maxSize) == t
    decreases |t|
  {
    var r := Until(d);
    if VerdictOf(r, t, maxSize).Message? {
      var m, left := VerdictOf(r, t, maxSize).data, LeftOf(r, t, maxSize);
      FirstDelimited(t, d, maxSize);
      MessagesShrink(r, t, maxSize);
      DelimitedReassemble(left, d, maxSize);
      FlattenFirst(m, Messages(r, left, maxSize), AtEnd(r, left, maxSize));
    }
  }

  lemma FlattenFirst(m: Bytes, more: seq<Bytes>, end: Bytes)
    ensures Flatten([m] + more) + end == m + (Flatten(more) + end)
  {
    assert ([m] + more)[1..] == more;
  }

  lemma ProgressesUntil(d: Bytes)
    requires d != []
    ensures Progresses(Until(d))
  {
  }

  lemma FirstMessage(r: Reader, t: Bytes, maxSize: nat)
    requires Progresses(r) && Messages(r, t, maxSize) != []
    ensures VerdictOf(r, t, maxSize).Message? && |LeftOf(r, t, maxSize)| < |t|
    ensures Messages(r, t, maxSize) == [VerdictOf(r, t, maxSize).data] + Messages(r, LeftOf(r, t, maxSize), maxSize)
  {
    MessagesShrink(r, t, maxSize);
  }

  /** And each of them ends with its first delimiter. */
  lemma {:induction false} EachDelimited(t: Bytes, d: Bytes, maxSize: nat, i: nat)
    requires d != [] && i < |Messages(Until(d), t, maxSize)|
    ensures Delimited(Messages(Until(d), t, maxSize)[i], d, maxSize)
    decreases |t|
  {
    var r := Until(d);
    hide Messages, Delimited, UntilVerdict, UntilLeft, Progresses;
    ProgressesUntil(d);
    FirstMessage(r, t, maxSize);
    FirstDelimited(t, d, maxSize);
    if i > 0 {
      EachDelimited(LeftOf(r, t, maxSize), d, maxSize, i - 1);
    }
  }

  function Fitting(frames: seq<Bytes>, maxSize: nat): seq<Bytes> {
    if frames == [] || |frames[0]| > maxSize then [] else [frames[0]] + Fitting(frames[1..], maxSize)
  }

  /** Read by size prefix, the messages are the frames of plain splitting up to the first that is too
      long; and if none is, what is left is their remainder. */
  lemma {:induction false} PrefixedMessages(t: Bytes, maxSize: nat)
    ensures Messages(Prefixed, t, maxSize) == Fitting(Frames(t), maxSize)
    ensures |Messages(Prefixed, t, maxSize)| == |Frames(t)| ==> AtEnd(Prefixed, t, maxSize) == Rest(t)
    decreases |t|
  {
    if PrefixedVerdict(t, maxSize).Message? {
      PrefixedMessages(AfterFirst(t), maxSize);
      assert Frames(t)[1..] == Frames(AfterFirst(t));
    }
  }
}
