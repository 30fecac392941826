/** The message builder of the BSI Flex 335 v2 test harness, with its 32-bit arithmetic, and how it
    agrees with the plain splitting of the same bytes. */
module MessageBuilder {
  import opened Wrappers
  import opened Framing

  const TWO_31: int := 0x8000_0000

  /** The value of a 32-bit two's complement sum. */
  function Wrap32(n: int): (r: int)
    requires -TWO_31 <= n < TWO_31 + MAX_U32
    ensures -TWO_31 <= r < TWO_31 && (r - n) % MAX_U32 == 0
  {
    if n < TWO_31 then n else n - MAX_U32
  }

  // ----- the bytes of an integer, on machines of either byte order

  function Reverse(b: Bytes): (r: Bytes)
    ensures |r| == |b|
  {
    seq(|b|, i requires 0 <= i < |b| => b[|b| - 1 - i])
  }

  function LowFirst(n: nat, k: nat): (r: Bytes)
    ensures |r| == k
  {
    if k == 0 then [] else [(n % 256) as Byte] + LowFirst(n / 256, k - 1)
  }

  function ValueOf(lowFirst: Bytes): nat {
    if lowFirst == [] then 0 else lowFirst[0] as nat + 256 * ValueOf(lowFirst[1..])
  }

  /** `BitConverter.GetBytes`, of an integer that is not negative. */
  function GetBytes(n: nat, isLittleEndian: bool): (r: Bytes)
    ensures |r| == HEADER_LEN
  {
    if isLittleEndian then LowFirst(n, HEADER_LEN) else Reverse(LowFirst(n, HEADER_LEN))
  }

  /** `BitConverter.ToInt32`. */
  function ToInt32(b: Bytes, isLittleEndian: bool): int
    requires |b| == HEADER_LEN
  {
    var v := ValueOf(if isLittleEndian then b else Reverse(b));
    if v < TWO_31 then v else v - MAX_U32
  }

  lemma LowFirstIsU32(n: nat)
    requires n < MAX_U32
    ensures LowFirst(n, HEADER_LEN) == ToU32(n)
  {
    assert LowFirst(n / 16777216, 1) == [(n / 16777216) as Byte];
    assert n / 16777216 == n / 65536 / 256 && n / 65536 == n / 256 / 256;
    assert LowFirst(n / 65536, 2) == [(n / 65536 % 256) as Byte, (n / 16777216) as Byte];
    assert LowFirst(n / 256, 3) == [(n / 256 % 256) as Byte] + LowFirst(n / 65536, 2);
  }

  lemma ValueIsU32(b: Bytes)
    requires |b| == HEADER_LEN
    ensures ValueOf(b) == FromU32(b)
  {
    assert ValueOf(b[3..]) == b[3] as nat;
    assert b[2..][1..] == b[3..] && b[1..][1..] == b[2..];
    assert ValueOf(b[2..]) == b[2] as nat + 256 * ValueOf(b[3..]);
    assert ValueOf(b[1..]) == b[1] as nat + 256 * ValueOf(b[2..]);
  }

  lemma ReverseTwice(b: Bytes)
    ensures Reverse(Reverse(b)) == b
  {
  }

  // ----- what the builder does with a buffer

  function MessageLength(buf: Bytes): (r: int)
    ensures -TWO_31 <= r < TWO_31
  {
    if |buf| > HEADER_LEN then Wrap32(Announced(buf)) else 0
  }

  /** The guard of the extraction: the sum with the header length may wrap around. */
  predicate Extracts(buf: Bytes) {
    MessageLength(buf) > 0 && Wrap32(MessageLength(buf) + HEADER_LEN) <= |buf|
  }

  /** The length wraps, so the guard passes and copying the message raises. */
  predicate Raises(buf: Bytes) {
    MessageLength(buf) + HEADER_LEN >= TWO_31
  }

  /** The frames the builder delivers from a buffer. */
  function Delivered(buf: Bytes): seq<Bytes> {
    if Raises(buf) || !Extracts(buf) then [] else [FirstFrame(buf)] + Delivered(AfterFirst(buf))
  }

  /** What it keeps; when that raises, the call that delivered the frames does. */
  function Kept(buf: Bytes): Bytes {
    if Raises(buf) || !Extracts(buf) then buf else Kept(AfterFirst(buf))
  }

  class ByteDataMessageBuilder {
    /** The byte order of the machine. */
    const isLittleEndian: bool
    var currentData: Bytes
    /** The messages the DataReceived event was raised with. */
    var received: seq<Bytes>

    constructor (isLittleEndian: bool)
      ensures currentData == [] && received == [] && this.isLittleEndian == isLittleEndian
    {
      currentData, received, this.isLittleEndian := [], [], isLittleEndian;
    }

    method AddHeader(data: Bytes) returns (r: Bytes)
      requires |data| < TWO_31
      ensures Encode(data) == Some(r)
    {
      var dataLengthInBytes := GetBytes(|data|, isLittleEndian);
      if !isLittleEndian {
        dataLengthInBytes := Reverse(dataLengthInBytes);
      }
      ReverseTwice(LowFirst(|data|, HEADER_LEN));
      LowFirstIsU32(|data|);
      r := dataLengthInBytes + data;
    }

    method GetMessageLengthFromHeader() returns (r: int)
      ensures r == MessageLength(currentData)
    {
      r := 0;
      if |currentData| > HEADER_LEN {
        var lengthData := currentData[..HEADER_LEN];
        ValueIsU32(lengthData);
        ReverseTwice(lengthData);
        if !isLittleEndian {
          lengthData := Reverse(lengthData);
        }
        r := ToInt32(lengthData, isLittleEndian);
      }
    }

    method AddData(data: Bytes) returns (raised: bool)
      modifies this
      ensures data == [] ==> currentData == old(currentData) && received == old(received) && !raised
      ensures data != [] ==>
                var buf := old(currentData) + data;
                received == old(received) + Delivered(buf) && currentData == Kept(buf) && raised == Raises(Kept(buf))
    {
      raised := false;
      if |data| > 0 {
        currentData := currentData + data;
        raised := ProcessReceivedData();
      }
    }

    method ProcessReceivedData() returns (raised: bool)
      modifies this
      ensures received == old(received + Delivered(currentData))
      ensures currentData == old(Kept(currentData)) && raised == Raises(currentData)
      decreases |currentData|
    {
      hide Delivered, Kept, FirstFrame, AfterFirst, FromU32, Announced;
      ghost var buf, before := currentData, received;
      NextDelivered(buf, before);
      var messageLength := GetMessageLengthFromHeader();
      var messagePlusHeaderLength := Wrap32(messageLength + HEADER_LEN);
      var totalDataLength := |currentData|;
      if messageLength > 0 && messagePlusHeaderLength <= totalDataLength {
        if messagePlusHeaderLength < 0 {
          return true;
        }
        var messageData := currentData[HEADER_LEN..HEADER_LEN + messageLength];
        currentData := currentData[messagePlusHeaderLength..];
        received := received + [messageData];
        if |currentData| > 0 {
          raised := ProcessReceivedData();
          return;
        }
        NothingDelivered(before + [messageData]);
      }
      raised := false;
    }
  }

  /** One extraction of the builder. */
  lemma NextDelivered(buf: Bytes, before: seq<Bytes>)
    ensures var length := MessageLength(buf);
            if length > 0 && Wrap32(length + HEADER_LEN) <= |buf| then
              && (Wrap32(length + HEADER_LEN) < 0 ==> Raises(buf) && before + Delivered(buf) == before && Kept(buf) == buf)
              && (Wrap32(length + HEADER_LEN) >= 0 ==>
                    && Wrap32(length + HEADER_LEN) == HEADER_LEN + length
                    && before + Delivered(buf)
                       == before + [buf[HEADER_LEN..HEADER_LEN + length]] + Delivered(buf[HEADER_LEN + length..])
                    && Kept(buf) == Kept(buf[HEADER_LEN + length..]))
            else !Raises(buf) && before + Delivered(buf) == before && Kept(buf) == buf
  {
    assert before + [] == before;
    if !Raises(buf) && Extracts(buf) {
      var length := MessageLength(buf);
      assert FirstFrame(buf) == buf[HEADER_LEN..HEADER_LEN + length] && AfterFirst(buf) == buf[HEADER_LEN + length..];
      Assoc(before, [FirstFrame(buf)], Delivered(AfterFirst(buf)));
    }
  }

  lemma Assoc(a: seq<Bytes>, b: seq<Bytes>, c: seq<Bytes>)
    ensures a + (b + c) == a + b + c
  {
  }

  lemma NothingDelivered(before: seq<Bytes>)
    ensures before + Delivered([]) == before && Kept([]) == [] && !Raises([])
  {
    assert before + [] == before;
  }

  // ----- agreement with the plain splitting

  /** The builder does not get past an empty frame, nor one of 2^31 - 4 bytes or more. */
  predicate Passes(f: Bytes) {
    0 < |f| < TWO_31 - HEADER_LEN
  }

  function Passing(frames: seq<Bytes>): seq<Bytes> {
    if frames == [] || !Passes(frames[0]) then [] else [frames[0]] + Passing(frames[1..])
  }

  lemma ExtractsComplete(buf: Bytes)
    ensures !Raises(buf) && Extracts(buf) <==> Complete(buf) && Passes(FirstFrame(buf))
  {
  }

  /** The builder delivers the complete frames up to the first it does not get past. */
  lemma {:induction false} BuilderDelivers(buf: Bytes)
    ensures Delivered(buf) == Passing(Frames(buf))
    decreases |buf|
  {
    ExtractsComplete(buf);
    if !Raises(buf) && Extracts(buf) {
      BuilderDelivers(AfterFirst(buf));
      assert Frames(buf)[1..] == Frames(AfterFirst(buf));
    }
  }

  lemma NothingEncoded(buf: Bytes)
    ensures EncodeAll([]) + buf == buf
  {
  }

  /** And it keeps all bytes from there on. */
  lemma {:induction false} BuilderKeeps(buf: Bytes)
    ensures EncodeAll(Delivered(buf)) + Kept(buf) == buf
    decreases |buf|
  {
    hide FromU32, ToU32, EncodeAll;
    ExtractsComplete(buf);
    if Raises(buf) || !Extracts(buf) {
      NothingEncoded(buf);
    } else {
      var after := AfterFirst(buf);
      BuilderKeeps(after);
      EncodeFirst(buf, Delivered(after), Kept(after));
    }
  }

  lemma {:induction false} PassingAll(frames: seq<Bytes>)
    ensures Passing(frames) == frames <==> forall i :: 0 <= i < |frames| ==> Passes(frames[i])
  {
    if frames != [] {
      PassingAll(frames[1..]);
      assert frames == [frames[0]] + frames[1..];
      assert (forall i :: 0 <= i < |frames| ==> Passes(frames[i]))
             <==> Passes(frames[0]) && forall i :: 0 <= i < |frames[1..]| ==> Passes(frames[1..][i]);
      if Passing(frames) == frames {
        assert Passing(frames)[1..] == Passing(frames[1..]);
      }
    }
  }

  /** The header that makes the builder raise, as soon as a byte follows it: the length wraps when the
      length of the header is added. */
  predicate Wraps(buf: Bytes) {
    |buf| > HEADER_LEN && TWO_31 - HEADER_LEN <= Announced(buf) < TWO_31
  }

  /** Builder and plain splitting agree on a buffer, and the builder does not raise, exactly when each
      frame has at least one byte and less than 2^31 - 4, and the rest does not announce a length that
      wraps. */
  lemma {:induction false} AgreesExactlyWhen(buf: Bytes)
    ensures Delivered(buf) == Frames(buf) && Kept(buf) == Rest(buf) && !Raises(Kept(buf))
            <==> (forall i :: 0 <= i < |Frames(buf)| ==> Passes(Frames(buf)[i])) && !Wraps(Rest(buf))
  {
    BuilderDelivers(buf);
    PassingAll(Frames(buf));
    WrapsRaises(Kept(buf));
    if Delivered(buf) == Frames(buf) {
      BuilderKeeps(buf);
      SplitReassembles(buf);
      SameRest(EncodeAll(Frames(buf)), Kept(buf), Rest(buf));
    }
  }

  lemma SameRest(before: Bytes, a: Bytes, b: Bytes)
    requires before + a == before + b
    ensures a == b
  {
    assert a == (before + a)[|before|..];
    assert b == (before + b)[|before|..];
  }

  lemma WrapsRaises(buf: Bytes)
    ensures Raises(buf) <==> Wraps(buf)
  {
  }

  /** The builder is stuck: with a header of an empty frame, or one of 2^31 - 4 bytes or more. */
  predicate Stuck(buf: Bytes) {
    |buf| >= HEADER_LEN && (Announced(buf) == 0 || Announced(buf) >= TWO_31 - HEADER_LEN)
  }

  lemma StuckNeverExtracts(buf: Bytes, more: Bytes)
    requires Stuck(buf)
    ensures Stuck(buf + more) && Delivered(buf + more) == [] && Kept(buf + more) == buf + more
  {
    assert (buf + more)[..HEADER_LEN] == buf[..HEADER_LEN];
  }

  /** It then delivers nothing any more, whatever comes. */
  lemma StuckForGood(t: Bytes, more: Bytes)
    requires Stuck(Kept(t))
    ensures Delivered(t + more) == Delivered(t) && Kept(t + more) == Kept(t) + more
  {
    BuilderComposes(t, more);
    StuckNeverExtracts(Kept(t), more);
  }

  function Zeros(n: nat): (r: Bytes)
    ensures |r| == n
  {
    seq(n, _ => 0)
  }

  /** And only then: otherwise some bytes make it deliver another frame. */
  lemma GoesOnUnlessStuck(t: Bytes) returns (more: Bytes)
    requires !Stuck(Kept(t))
    ensures |Delivered(t + more)| > |Delivered(t)|
  {
    var kept := Kept(t);
    var header := if |kept| >= HEADER_LEN then [] else Zeros(3 - |kept|) + [1];
    var buf := kept + header;
    assert |buf| >= HEADER_LEN && !Stuck(buf) by {
      if |kept| < HEADER_LEN { assert buf[..HEADER_LEN] == buf && buf[3] == 1; } else { assert buf == kept; }
    }
    more := header + Zeros(Announced(buf));
    var all := buf + Zeros(Announced(buf));
    assert kept + more == all && all[..HEADER_LEN] == buf[..HEADER_LEN];
    ExtractsComplete(all);
    BuilderComposes(t, more);
  }

  // ----- any sequence of AddData calls

  lemma {:induction false} BuilderComposes(a: Bytes, b: Bytes)
    ensures Delivered(a + b) == Delivered(a) + Delivered(Kept(a) + b)
    ensures Kept(a + b) == Kept(Kept(a) + b)
    decreases |a|
  {
    hide FromU32;
    if !Raises(a) && Extracts(a) {
      ExtractsComplete(a);
      FirstOfConcat(a, b);
      ExtractsComplete(a + b);
      BuilderComposes(AfterFirst(a), b);
    }
  }

  datatype Builder = Builder(received: seq<Bytes>, currentData: Bytes, raised: bool)

  /** The builder after a sequence of AddData calls, some of which may have raised, and whether the last
      one did. */
  function Fed(chunks: seq<Bytes>): Builder {
    if chunks == [] then Builder([], [], false)
    else
      var b, data := Fed(chunks[..|chunks| - 1]), chunks[|chunks| - 1];
      if data == [] then b.(raised := false)
      else
        var kept := Kept(b.currentData + data);
        Builder(b.received + Delivered(b.currentData + data), kept, Raises(kept))
  }

  /** However the bytes are cut up, what has been delivered is the frames that plain splitting finds
      in all bytes so far, up to the first the builder does not get past. */
  lemma {:induction false} FedDelivers(chunks: seq<Bytes>)
    ensures Fed(chunks).received == Delivered(Flatten(chunks)) && Fed(chunks).currentData == Kept(Flatten(chunks))
    ensures Fed(chunks).received == Passing(Frames(Flatten(chunks)))
    ensures EncodeAll(Fed(chunks).received) + Fed(chunks).currentData == Flatten(chunks)
  {
    if chunks != [] {
      var before, data := Flatten(chunks[..|chunks| - 1]), chunks[|chunks| - 1];
      FlattenSnoc(chunks[..|chunks| - 1], data);
      assert chunks[..|chunks| - 1] + [data] == chunks;
      FedDelivers(chunks[..|chunks| - 1]);
      BuilderComposes(before, data);
      if data == [] { assert before + data == before; }
    }
    BuilderDelivers(Flatten(chunks));
    BuilderKeeps(Flatten(chunks));
  }

  /** A call with data raises exactly when, after all frames the builder gets past, there are more than
      four bytes and they announce a length from 2^31 - 4 on and below 2^31. */
  lemma RaisesExactlyWhen(chunks: seq<Bytes>)
    requires chunks != [] && chunks[|chunks| - 1] != []
    ensures var t := Flatten(chunks);
            var done := EncodeAll(Passing(Frames(t)));
            && |done| <= |t| && t[..|done|] == done
            && (Fed(chunks).raised <==> Wraps(t[|done|..]))
  {
    hide Wraps, Raises, Kept, Frames, Passing, EncodeAll;
    KeptIsAfterPassing(Flatten(chunks));
    WrapsRaises(Kept(Flatten(chunks)));
    FedRaises(chunks);
  }

  lemma KeptIsAfterPassing(t: Bytes)
    ensures var done := EncodeAll(Passing(Frames(t)));
            |done| <= |t| && t[..|done|] == done && t[|done|..] == Kept(t)
  {
    hide Kept, Delivered, Frames, Passing, EncodeAll;
    BuilderDelivers(t);
    BuilderKeeps(t);
  }

  lemma FedRaises(chunks: seq<Bytes>)
    requires chunks != [] && chunks[|chunks| - 1] != []
    ensures Fed(chunks).raised <==> Raises(Kept(Flatten(chunks)))
  {
    hide Raises, Kept, Delivered, Frames, Passing, EncodeAll;
    var before, data := chunks[..|chunks| - 1], chunks[|chunks| - 1];
    FedDelivers(before);
    FlattenSnoc(before, data);
    assert before + [data] == chunks;
    BuilderComposes(Flatten(before), data);
  }

  // ----- inputs for which the builder fails

  /** An empty frame, then one of one byte: the framing has both, the builder delivers neither. */
  lemma EmptyFrameStops()
    ensures var t: Bytes := [0, 0, 0, 0, 1, 0, 0, 0, 7];
            Frames(t) == [[], [7]] && Delivered(t) == [] && Kept(t) == t
  {
    var t: Bytes := [0, 0, 0, 0, 1, 0, 0, 0, 7];
    assert t[..HEADER_LEN] == [0, 0, 0, 0] && FirstFrame(t) == [];
    var u := AfterFirst(t);
    assert u == [1, 0, 0, 0, 7] && u[..HEADER_LEN] == [1, 0, 0, 0] && FirstFrame(u) == [7] && AfterFirst(u) == [];
    assert Frames(t) == [[]] + ([[7]] + Frames([]));
  }

  /** A header that announces 2^31 - 1 bytes, and one byte: the builder raises before any frame is there. */
  lemma LongFrameRaises()
    ensures var t: Bytes := [255, 255, 255, 127, 0];
            Frames(t) == [] && Raises(Kept(t)) && !Raises(Kept(t[..4]))
  {
    var t: Bytes := [255, 255, 255, 127, 0];
    assert t[..HEADER_LEN] == [255, 255, 255, 127];
  }

  /** A header that announces 2^31 bytes: the length reads as negative, and the builder waits forever. */
  lemma LongerFrameStalls(more: Bytes)
    ensures var t: Bytes := [0, 0, 0, 128, 0];
            !Raises(Kept(t + more)) && Delivered(t + more) == []
  {
    var t: Bytes := [0, 0, 0, 128, 0];
    assert t[..HEADER_LEN] == [0, 0, 0, 128] == (t + more)[..HEADER_LEN];
  }
}
