/** The length-delimited frame that every log record and every serial packet uses:
    0xAA, 32-bit timestamp, 16-bit length, payload, 0x55. */
module BinaryFrame {
  import opened Bytes

  const START_BYTE: Byte := 0xAA
  const END_BYTE: Byte := 0x55
  const HEADER_SIZE := 7
  const FOOTER_SIZE := 1

  /** A payload that a 16-bit length field can describe. */
  type Payload = p: seq<Byte> | |p| < 0x1_0000

  /** Where `Unwrap` found the payload inside the caller's buffer. */
  datatype FrameView = FrameView(start: nat, length: U16, timestamp: U32)

  datatype Decoded = Decoded(payload: Payload, timestamp: U32)

  function RequiredSize(payloadLen: nat): nat {
    HEADER_SIZE + payloadLen + FOOTER_SIZE
  }

  function HeaderBytes(startByte: Byte, length: U16, ts: U32): seq<Byte> {
    [startByte] + Encode32(ts) + Encode16(length)
  }

  function Header(length: U16, ts: U32): seq<Byte> {
    HeaderBytes(START_BYTE, length, ts)
  }

  /** The frame format itself. */
  function Frame(payload: Payload, ts: U32): seq<Byte> {
    Header(|payload|, ts) + payload + [END_BYTE]
  }

  /** What a reader of the format accepts: a start byte, room for the announced
      length, and the end byte where that length says it is. */
  function Parse(b: seq<Byte>): Option<Decoded> {
    if |b| < HEADER_SIZE + FOOTER_SIZE || b[0] != START_BYTE then None
    else
      var length := Decode16(b[5], b[6]);
      if |b| < RequiredSize(length) || b[HEADER_SIZE + length] != END_BYTE then None
      else Some(Decoded(b[HEADER_SIZE..HEADER_SIZE + length], Decode32(b[1], b[2], b[3], b[4])))
  }

  /** The format, byte by byte: 0xAA, the timestamp and the length with their low bytes first, the
      payload, 0x55. */
  lemma FrameFormat(payload: Payload, ts: U32)
    ensures var f, n := Frame(payload, ts), |payload|;
      && |f| == n + 8 && f[0] == 0xAA && f[7 + n] == 0x55 && f[7..7 + n] == payload
      && f[1] as int + 0x100 * f[2] as int + 0x1_0000 * f[3] as int + 0x100_0000 * f[4] as int == ts
      && f[5] as int + 0x100 * f[6] as int == n
  {
    Decode32Inverts(ts);
    FrameLayout(payload, ts);
    var f := Frame(payload, ts);
    assert [f[1], f[2], f[3], f[4]] == f[1..5] && [f[5], f[6]] == f[5..7];
  }

  lemma FrameLayout(payload: Payload, ts: U32)
    ensures var f := Frame(payload, ts);
      && |f| == RequiredSize(|payload|)
      && f[0] == START_BYTE && f[1..5] == Encode32(ts) && f[5..7] == Encode16(|payload|)
      && f[7..7 + |payload|] == payload && f[7 + |payload|] == END_BYTE
  {
  }

  lemma FrameFromParts(f: seq<Byte>, payload: Payload, ts: U32)
    requires |f| == RequiredSize(|payload|) && f[..HEADER_SIZE] == Header(|payload|, ts)
    requires f[HEADER_SIZE..HEADER_SIZE + |payload|] == payload && f[HEADER_SIZE + |payload|] == END_BYTE
    ensures f == Frame(payload, ts)
  {
  }

  /** Round trip: whatever follows a frame, parsing gives back its payload and timestamp. */
  lemma ParseInvertsFrame(payload: Payload, ts: U32, suffix: seq<Byte>)
    ensures Parse(Frame(payload, ts) + suffix) == Some(Decoded(payload, ts))
  {
    var f := Frame(payload, ts);
    var b := f + suffix;
    FrameLayout(payload, ts);
    Decode32Inverts(ts);
    assert b[..|f|] == f;
    assert [b[1], b[2], b[3], b[4]] == f[1..5];
    assert [b[5], b[6]] == f[5..7];
    assert b[7..7 + |payload|] == f[7..7 + |payload|];
  }

  /** Canonical: an accepted buffer begins with the encoding of what was returned. */
  lemma AcceptedStartsWithFrame(b: seq<Byte>)
    requires Parse(b).Some?
    ensures Frame(Parse(b).value.payload, Parse(b).value.timestamp) <= b
  {
    var Decoded(payload, ts) := Parse(b).value;
    Encode32Inverts(b[1], b[2], b[3], b[4]);
    FrameLayout(payload, ts);
    var f := Frame(payload, ts);
    assert f[1..5] == b[1..5] && f[5..7] == b[5..7];
    assert f[7..7 + |payload|] == b[7..7 + |payload|];
    forall k | 0 <= k < |f| ensures f[k] == b[k] {
      if 1 <= k < 5 { assert f[1..5][k - 1] == b[1..5][k - 1]; }
      else if 5 <= k < 7 { assert f[5..7][k - 5] == b[5..7][k - 5]; }
      else if 7 <= k < 7 + |payload| { assert f[7..7 + |payload|][k - 7] == b[k]; }
    }
  }

  /** A buffer is accepted exactly when it begins with some frame. */
  lemma AcceptedIffFramePrefix(b: seq<Byte>)
    ensures Parse(b).Some? <==> exists payload: Payload, ts: U32 :: Frame(payload, ts) <= b
  {
    if Parse(b).Some? {
      AcceptedStartsWithFrame(b);
    }
    if exists payload: Payload, ts: U32 :: Frame(payload, ts) <= b {
      var payload: Payload, ts: U32 :| Frame(payload, ts) <= b;
      ParseInvertsFrame(payload, ts, b[|Frame(payload, ts)|..]);
      assert b == Frame(payload, ts) + b[|Frame(payload, ts)|..];
    }
  }

  /** Truncation is always noticed. */
  lemma StrictPrefixRejected(payload: Payload, ts: U32, n: nat)
    requires n < |Frame(payload, ts)|
    ensures Parse(Frame(payload, ts)[..n]) == None
  {
  }

  /** The bytes of a run of frames, back to back. */
  function Frames(ds: seq<Decoded>): seq<Byte> {
    if ds == [] then [] else Frame(ds[0].payload, ds[0].timestamp) + Frames(ds[1..])
  }

  /** Unique decoding: back-to-back frames can be read in one way only. */
  lemma {:induction false} FramesInjective(xs: seq<Decoded>, ys: seq<Decoded>)
    requires Frames(xs) == Frames(ys)
    ensures xs == ys
  {
    if xs == [] || ys == [] {
    } else {
      ParseInvertsFrame(xs[0].payload, xs[0].timestamp, Frames(xs[1..]));
      ParseInvertsFrame(ys[0].payload, ys[0].timestamp, Frames(ys[1..]));
      var n := |Frame(xs[0].payload, xs[0].timestamp)|;
      assert Frames(xs[1..]) == Frames(xs)[n..] == Frames(ys)[n..] == Frames(ys[1..]);
      FramesInjective(xs[1..], ys[1..]);
      assert xs == [xs[0]] + xs[1..] && ys == [ys[0]] + ys[1..];
    }
  }

  /** Writes the seven header bytes, low byte first. */
  method EncodeHeader(outBuf: array?<Byte>, outSize: nat, startByte: Byte, length: U16, ts: U32) returns (ok: bool)
    requires outBuf != null ==> outSize <= outBuf.Length
    modifies outBuf
    ensures ok == (outBuf != null && HEADER_SIZE <= outSize)
    ensures ok ==> outBuf[..HEADER_SIZE] == HeaderBytes(startByte, length, ts)
    ensures ok ==> forall k :: HEADER_SIZE <= k < outBuf.Length ==> outBuf[k] == old(outBuf[k])
    ensures !ok && outBuf != null ==> outBuf[..] == old(outBuf[..])
  {
    if outBuf == null { return false; }
    if outSize < HEADER_SIZE { return false; }
    outBuf[0] := startByte;
    outBuf[1] := ts % 0x100;
    outBuf[2] := ts / 0x100 % 0x100;
    outBuf[3] := ts / 0x1_0000 % 0x100;
    outBuf[4] := ts / 0x100_0000;
    outBuf[5] := length % 0x100;
    outBuf[6] := length / 0x100;
    return true;
  }

  /** Builds a frame in `outBuf`. The payload may start at `outBuf`, may already sit
      where the frame wants it, or may be elsewhere; the frame always carries the
      payload as it was before the call. */
  method WrapInPlace(outBuf: array?<Byte>, outSize: nat, payloadBuf: array<Byte>, start: nat, length: U16, ts: U32)
    returns (ok: bool)
    requires outBuf != null ==> outSize <= outBuf.Length
    requires start + length <= payloadBuf.Length
    requires outBuf == payloadBuf ==> start == 0 || start >= HEADER_SIZE
    modifies outBuf
    ensures ok == (outBuf != null && RequiredSize(length) <= outSize)
    ensures ok ==> outBuf[..RequiredSize(length)] == Frame(old(payloadBuf[start..start + length]), ts)
    ensures ok ==> forall k :: RequiredSize(length) <= k < outBuf.Length ==> outBuf[k] == old(outBuf[k])
    ensures !ok && outBuf != null ==> outBuf[..] == old(outBuf[..])
  {
    if outBuf == null { return false; }
    if outSize < RequiredSize(length) { return false; }
    if outBuf == payloadBuf && start == 0 {
      MemMoveUp(outBuf, HEADER_SIZE, 0, length);
    } else {
      MemCpy(outBuf, HEADER_SIZE, payloadBuf, start, length);
    }
    ghost var payload: Payload := old(payloadBuf[start..start + length]);
    ghost var moved := outBuf[..];
    assert moved[HEADER_SIZE..HEADER_SIZE + length] == payload;
    var _ := EncodeHeader(outBuf, outSize, START_BYTE, length, ts);
    ghost var header := outBuf[..HEADER_SIZE];
    outBuf[HEADER_SIZE + length] := END_BYTE;
    assert outBuf[..HEADER_SIZE] == header;
    assert outBuf[HEADER_SIZE..HEADER_SIZE + length] == moved[HEADER_SIZE..HEADER_SIZE + length];
    ghost var f := outBuf[..RequiredSize(length)];
    assert f[..HEADER_SIZE] == header;
    assert f[HEADER_SIZE..HEADER_SIZE + length] == payload;
    FrameFromParts(f, payload, ts);
    return true;
  }

  /** Reads the frame at the start of the first `size` bytes of `buffer`, without copying. */
  method Unwrap(buffer: array?<Byte>, size: nat) returns (r: Option<FrameView>)
    requires buffer != null ==> size <= buffer.Length
    ensures buffer == null ==> r == None
    ensures buffer != null ==> (r.Some? <==> Parse(buffer[..size]).Some?)
    ensures buffer != null && r.Some? ==>
      var v := r.value;
      && v.start == HEADER_SIZE && RequiredSize(v.length) <= size
      && Parse(buffer[..size]) == Some(Decoded(buffer[v.start..v.start + v.length], v.timestamp))
  {
    if buffer == null { return None; }
    if size < HEADER_SIZE + FOOTER_SIZE { return None; }
    ghost var b := buffer[..size];
    var pos: nat := 0;
    if buffer[pos] != START_BYTE { return None; }
    pos := pos + 1;
    var ts := Decode32(buffer[pos], buffer[pos + 1], buffer[pos + 2], buffer[pos + 3]);
    pos := pos + 4;
    var readLength := Decode16(buffer[pos], buffer[pos + 1]);
    pos := pos + 2;
    if size < RequiredSize(readLength) { return None; }
    var start := pos;
    pos := pos + readLength;
    if buffer[pos] != END_BYTE { return None; }
    assert b[HEADER_SIZE..HEADER_SIZE + readLength] == buffer[start..start + readLength];
    return Some(FrameView(start, readLength, ts));
  }

  /** Reads a header written by `EncodeHeader` or by `WrapInPlace`; `None` when there is no
      buffer or it is too short. */
  method ParseHeader(buffer: array?<Byte>, size: nat) returns (r: Option<(Byte, U32, U16)>)
    requires buffer != null ==> size <= buffer.Length
    ensures r.None? <==> buffer == null || size < HEADER_SIZE
    ensures forall startByte: Byte, length: U16, ts: U32 ::
      r.Some? && buffer[..HEADER_SIZE] == HeaderBytes(startByte, length, ts) ==> r == Some((startByte, ts, length))
  {
    if buffer == null { return None; }
    if size < HEADER_SIZE { return None; }
    r := Some((buffer[0], Decode32(buffer[1], buffer[2], buffer[3], buffer[4]), Decode16(buffer[5], buffer[6])));
    forall startByte: Byte, length: U16, ts: U32 | buffer[..HEADER_SIZE] == HeaderBytes(startByte, length, ts)
      ensures r == Some((startByte, ts, length))
    {
      Decode32Inverts(ts);
      var h := HeaderBytes(startByte, length, ts);
      assert h[1..5] == Encode32(ts) && h[5..7] == Encode16(length);
      assert forall k :: 0 <= k < HEADER_SIZE ==> buffer[k] == h[k];
      assert [buffer[1], buffer[2], buffer[3], buffer[4]] == h[1..5];
      assert [buffer[5], buffer[6]] == h[5..7];
    }
  }
}
