/** The framing of section 4.2 of BSI Flex 335 v2: a 4-byte little-endian length, then the payload. */
module Framing {
  import opened Wrappers

  type Byte = b: int | 0 <= b < 256
  type Bytes = seq<Byte>

  const HEADER_LEN := 4
  const MAX_U32: int := 0x1_0000_0000

  /** The bytes of a sequence of chunks. */
  function Flatten(chunks: seq<Bytes>): Bytes {
    if chunks == [] then [] else chunks[0] + Flatten(chunks[1..])
  }

  lemma {:induction false} FlattenSnoc(chunks: seq<Bytes>, c: Bytes)
    ensures Flatten(chunks + [c]) == Flatten(chunks) + c
  {
    if chunks == [] {
      assert chunks + [c] == [c];
    } else {
      assert (chunks + [c])[1..] == chunks[1..] + [c];
      FlattenSnoc(chunks[1..], c);
    }
  }

  function ToU32(n: nat): (r: Bytes)
    requires n < MAX_U32
    ensures |r| == HEADER_LEN
  {
    [n % 256, n / 256 % 256, n / 65536 % 256, n / 16777216]
  }

  function FromU32(b: Bytes): (n: nat)
    requires |b| == HEADER_LEN
    ensures n < MAX_U32
  {
    b[0] as int + 256 * (b[1] as int) + 65536 * (b[2] as int) + 16777216 * (b[3] as int)
  }

  lemma U32RoundTrip(n: nat)
    requires n < MAX_U32
    ensures FromU32(ToU32(n)) == n
  {
    assert n / 65536 == n / 256 / 256 && n / 16777216 == n / 65536 / 256;
  }

  lemma U32Injective(b: Bytes)
    requires |b| == HEADER_LEN
    ensures ToU32(FromU32(b)) == b
  {
    var b0: int, b1: int, b2: int, b3: int := b[0], b[1], b[2], b[3];
    var n := FromU32(b);
    LastDigit(b0, b1 + 256 * b2 + 65536 * b3);
    LastDigit(b1, b2 + 256 * b3);
    LastDigit(b2, b3);
    DivTwice(n);
  }

  lemma LastDigit(digit: int, rest: int)
    requires 0 <= digit < 256
    ensures (digit + 256 * rest) % 256 == digit && (digit + 256 * rest) / 256 == rest
  {
  }

  lemma DivTwice(n: nat)
    ensures n / 65536 == n / 256 / 256 && n / 16777216 == n / 256 / 256 / 256
  {
  }

  /** None when the length does not fit the header, where packing it raises. */
  function Encode(payload: Bytes): Option<Bytes> {
    if |payload| < MAX_U32 then Some(ToU32(|payload|) + payload) else None
  }

  /** Frames that can be encoded, one after the other. */
  function EncodeAll(frames: seq<Bytes>): Bytes {
    if frames == [] then []
    else (if |frames[0]| < MAX_U32 then ToU32(|frames[0]|) + frames[0] else []) + EncodeAll(frames[1..])
  }

  predicate Encodable(frames: seq<Bytes>) {
    forall i :: 0 <= i < |frames| ==> |frames[i]| < MAX_U32
  }

  // ----- splitting a buffer

  /** The length that a buffer's header announces. */
  function Announced(buf: Bytes): nat
    requires |buf| >= HEADER_LEN
  {
    FromU32(buf[..HEADER_LEN])
  }

  predicate Complete(buf: Bytes) {
    |buf| >= HEADER_LEN && HEADER_LEN + Announced(buf) <= |buf|
  }

  function FirstFrame(buf: Bytes): Bytes
    requires Complete(buf)
  {
    buf[HEADER_LEN..HEADER_LEN + Announced(buf)]
  }

  function AfterFirst(buf: Bytes): (rest: Bytes)
    requires Complete(buf)
    ensures |rest| < |buf|
  {
    buf[HEADER_LEN + Announced(buf)..]
  }

  /** The complete frames of a buffer. */
  function Frames(buf: Bytes): seq<Bytes> {
    if Complete(buf) then [FirstFrame(buf)] + Frames(AfterFirst(buf)) else []
  }

  /** The bytes left over. */
  function Rest(buf: Bytes): Bytes {
    if Complete(buf) then Rest(AfterFirst(buf)) else buf
  }

  /** The first i bytes make up the frames so far. */
  ghost predicate SplitSoFar(buf: Bytes, frames: seq<Bytes>, i: nat) {
    i <= |buf| && Frames(buf) == frames + Frames(buf[i..]) && Rest(buf) == Rest(buf[i..])
  }

  /** Sync splitting of a buffered byte string. */
  method SplitStream(buf: Bytes) returns (frames: seq<Bytes>, rest: Bytes)
    ensures frames == Frames(buf) && rest == Rest(buf)
  {
    frames := [];
    var i, n := 0, |buf|;
    assert buf[0..] == buf;
    while n - i >= HEADER_LEN
      invariant 0 <= i <= n
      invariant SplitSoFar(buf, frames, i)
    {
      var length := FromU32(buf[i..i + HEADER_LEN]);
      var end := i + HEADER_LEN + length;
      SplitNext(buf, frames, i, end);
      if end > n {
        break;
      }
      frames := frames + [buf[i + HEADER_LEN..end]];
      i := end;
    }
    rest := buf[i..];
    assert !Complete(rest);
    assert frames + [] == frames;
  }

  lemma HeaderAt(buf: Bytes, i: nat)
    requires i + HEADER_LEN <= |buf|
    ensures Announced(buf[i..]) == FromU32(buf[i..i + HEADER_LEN])
    ensures var end := i + HEADER_LEN + FromU32(buf[i..i + HEADER_LEN]);
            if end <= |buf|
            then Complete(buf[i..]) && FirstFrame(buf[i..]) == buf[i + HEADER_LEN..end] && AfterFirst(buf[i..]) == buf[end..]
            else !Complete(buf[i..])
  {
    assert buf[i..][..HEADER_LEN] == buf[i..i + HEADER_LEN];
  }

  lemma SplitNext(buf: Bytes, frames: seq<Bytes>, i: nat, end: nat)
    requires i + HEADER_LEN <= |buf| && end == i + HEADER_LEN + FromU32(buf[i..i + HEADER_LEN])
    requires SplitSoFar(buf, frames, i)
    ensures if end <= |buf| then SplitSoFar(buf, frames + [buf[i + HEADER_LEN..end]], end) else !Complete(buf[i..])
  {
    HeaderAt(buf, i);
    if end <= |buf| {
      assert frames + ([buf[i + HEADER_LEN..end]] + Frames(buf[end..]))
             == frames + [buf[i + HEADER_LEN..end]] + Frames(buf[end..]);
    }
  }

  lemma {:induction false} FramesEncodable(buf: Bytes)
    ensures Encodable(Frames(buf)) && !Complete(Rest(buf))
    decreases |buf|
  {
    if Complete(buf) { FramesEncodable(AfterFirst(buf)); }
  }

  lemma EncodeFirst(buf: Bytes, more: seq<Bytes>, rest: Bytes)
    requires Complete(buf)
    ensures EncodeAll([FirstFrame(buf)] + more) + rest
            == buf[..HEADER_LEN + Announced(buf)] + (EncodeAll(more) + rest)
  {
    U32Injective(buf[..HEADER_LEN]);
    assert ([FirstFrame(buf)] + more)[1..] == more;
    assert buf[..HEADER_LEN + Announced(buf)] == buf[..HEADER_LEN] + FirstFrame(buf);
  }

  /** No byte is lost or invented. */
  lemma {:induction false} SplitReassembles(buf: Bytes)
    ensures EncodeAll(Frames(buf)) + Rest(buf) == buf
    decreases |buf|
  {
    if Complete(buf) {
      var after := AfterFirst(buf);
      SplitReassembles(after);
      EncodeFirst(buf, Frames(after), Rest(after));
    }
  }

  /** Splitting as the bytes come in gives the same frames as splitting them all at once. */
  lemma {:induction false} SplitComposes(a: Bytes, b: Bytes)
    ensures Frames(a + b) == Frames(a) + Frames(Rest(a) + b)
    ensures Rest(a + b) == Rest(Rest(a) + b)
    decreases |a|
  {
    if Complete(a) {
      FirstOfConcat(a, b);
      SplitComposes(AfterFirst(a), b);
    }
  }

  lemma FirstOfConcat(a: Bytes, b: Bytes)
    requires Complete(a)
    ensures Complete(a + b) && FirstFrame(a + b) == FirstFrame(a) && AfterFirst(a + b) == AfterFirst(a) + b
  {
    assert (a + b)[..HEADER_LEN] == a[..HEADER_LEN];
  }

  /** Splitting inverts encoding. */
  lemma {:induction false} SplitInvertsEncode(frames: seq<Bytes>, rest: Bytes)
    requires Encodable(frames) && !Complete(rest)
    ensures Frames(EncodeAll(frames) + rest) == frames && Rest(EncodeAll(frames) + rest) == rest
    decreases |frames|
  {
    if frames == [] {
      assert EncodeAll(frames) + rest == rest;
    } else {
      var f, more := frames[0], EncodeAll(frames[1..]) + rest;
      var buf := EncodeAll(frames) + rest;
      assert buf == ToU32(|f|) + f + more;
      assert buf[..HEADER_LEN] == ToU32(|f|);
      U32RoundTrip(|f|);
      assert FirstFrame(buf) == f && AfterFirst(buf) == more;
      SplitInvertsEncode(frames[1..], rest);
    }
  }

  /** So the frames and the remainder are the only way to read a buffer. */
  lemma SplitUnique(buf: Bytes, frames: seq<Bytes>, rest: Bytes)
    requires Encodable(frames) && !Complete(rest)
    ensures buf == EncodeAll(frames) + rest <==> frames == Frames(buf) && rest == Rest(buf)
  {
    FramesEncodable(buf);
    SplitReassembles(buf);
    SplitInvertsEncode(frames, rest);
  }
}
