/** The desktop serial port: an incremental reader of [SOF][LEN][PAYLOAD] packets that keeps
    an unfinished tail between calls. */
module NativeSerialPort {
  import opened Bytes

  const SOF: Byte := 0x2A
  const MAX_BUFFER := 4096

  /** The largest accepted payload, a build-time constant between 1 and 255. */
  type MaxLength = m: int | 1 <= m <= 255 witness 1

  /** The position of the first start byte; the length when there is none. */
  function FindSof(b: seq<Byte>): (i: nat)
    ensures i <= |b|
  {
    if b == [] || b[0] == SOF then 0 else 1 + FindSof(b[1..])
  }

  lemma {:induction false} FindSofIsFirst(b: seq<Byte>, i: nat)
    requires i <= |b|
    ensures FindSof(b) == i <==> SOF !in b[..i] && (i < |b| ==> b[i] == SOF)
  {
    if b == [] {
    } else {
      if i == 0 {
      } else {
        FindSofIsFirst(b[1..], i - 1);
        assert b[..i] == [b[0]] + b[1..][..i - 1];
      }
    }
  }

  /** The next thing to do with a buffer: wait for more bytes, drop a bad start byte and what
      precedes it, or take a packet. `used` counts the bytes done with. */
  datatype Action = Wait | Drop(used: nat) | Take(packet: seq<Byte>, used: nat)

  function First(b: seq<Byte>, max: MaxLength): (a: Action)
    ensures !a.Wait? ==> 0 < a.used <= |b|
    ensures a.Take? ==> 1 <= |a.packet| <= max
  {
    var i := FindSof(b);
    if |b| < i + 2 then Wait
    else if b[i + 1] == 0 || b[i + 1] > max then Drop(i + 1)
    else if |b| < i + 2 + b[i + 1] then Wait
    else Take(b[i + 2..i + 2 + b[i + 1]], i + 2 + b[i + 1])
  }

  /** What a buffer holds: the complete packets in it, and the unparsed tail. */
  function Scan(b: seq<Byte>, max: MaxLength): (seq<seq<Byte>>, seq<Byte>)
    decreases |b|
  {
    match First(b, max)
    case Wait => ([], b)
    case Drop(used) => Scan(b[used..], max)
    case Take(packet, used) =>
      var (packets, tail) := Scan(b[used..], max);
      ([packet] + packets, tail)
  }

  lemma FindSofPrefix(a: seq<Byte>, b: seq<Byte>)
    requires FindSof(a) < |a|
    ensures FindSof(a + b) == FindSof(a)
  {
    var i := FindSof(a);
    FindSofIsFirst(a, i);
    assert (a + b)[..i] == a[..i] && (a + b)[i] == a[i];
    FindSofIsFirst(a + b, i);
  }

  /** A decision once taken does not depend on bytes that arrive later. */
  lemma FirstPrefix(a: seq<Byte>, b: seq<Byte>, max: MaxLength)
    requires !First(a, max).Wait?
    ensures First(a + b, max) == First(a, max)
    ensures (a + b)[First(a, max).used..] == a[First(a, max).used..] + b
  {
    FindSofPrefix(a, b);
    var i := FindSof(a);
    assert (a + b)[i + 1] == a[i + 1];
    if First(a, max).Take? {
      assert (a + b)[i + 2..i + 2 + a[i + 1]] == a[i + 2..i + 2 + a[i + 1]];
    }
  }

  /** Two calls: scan what has arrived, keep the tail, and scan it again with what follows. */
  function ScanTwice(a: seq<Byte>, b: seq<Byte>, max: MaxLength): (seq<seq<Byte>>, seq<Byte>) {
    var (packets, tail) := Scan(a, max);
    var (more, rest) := Scan(tail + b, max);
    (packets + more, rest)
  }

  lemma TakeSplits(a: seq<Byte>, b: seq<Byte>, max: MaxLength, packet: seq<Byte>, used: nat)
    requires First(a, max) == First(a + b, max) == Take(packet, used)
    requires used <= |a| && (a + b)[used..] == a[used..] + b
    requires ScanTwice(a[used..], b, max) == Scan(a[used..] + b, max)
    ensures ScanTwice(a, b, max) == Scan(a + b, max)
  {
    var (packets, tail) := Scan(a[used..], max);
    var more := Scan(tail + b, max).0;
    assert [packet] + (packets + more) == ([packet] + packets) + more;
    assert Scan(a, max) == ([packet] + packets, tail);
  }

  /** Split anywhere: two calls find the same packets and leave the same tail as one. */
  lemma {:induction false} ScanSplits(a: seq<Byte>, b: seq<Byte>, max: MaxLength)
    ensures ScanTwice(a, b, max) == Scan(a + b, max)
    decreases |a|
  {
    match First(a, max)
    case Wait =>
      assert [] + Scan(a + b, max).0 == Scan(a + b, max).0;
    case Drop(used) =>
      FirstPrefix(a, b, max);
      ScanSplits(a[used..], b, max);
    case Take(packet, used) =>
      FirstPrefix(a, b, max);
      ScanSplits(a[used..], b, max);
      TakeSplits(a, b, max, packet, used);
  }

  /** Every packet found has an accepted length, and the kept tail holds no packet. */
  lemma {:induction false} ScanIsComplete(b: seq<Byte>, max: MaxLength)
    ensures forall p :: p in Scan(b, max).0 ==> 1 <= |p| <= max
    ensures Scan(Scan(b, max).1, max) == ([], Scan(b, max).1)
    decreases |b|
  {
    var first := First(b, max);
    if !first.Wait? {
      ScanIsComplete(b[first.used..], max);
    }
  }

  lemma FindSofAfter(noise: seq<Byte>, b: seq<Byte>)
    requires 0x2A !in noise
    ensures FindSof(noise + b) == |noise| + FindSof(b)
  {
    var i := FindSof(b);
    FindSofIsFirst(b, i);
    assert (noise + b)[..|noise| + i] == noise + b[..i];
    FindSofIsFirst(noise + b, |noise| + i);
  }

  lemma SliceAfter(a: seq<Byte>, b: seq<Byte>, i: nat, j: nat)
    requires i <= j <= |b|
    ensures (a + b)[|a| + i..|a| + j] == b[i..j] && (a + b)[|a| + i..] == b[i..]
  {
  }

  function Later(a: Action, n: nat): Action {
    match a
    case Wait => Wait
    case Drop(used) => Drop(n + used)
    case Take(packet, used) => Take(packet, n + used)
  }

  lemma FirstAfterNoise(noise: seq<Byte>, b: seq<Byte>, max: MaxLength)
    requires 0x2A !in noise
    ensures First(noise + b, max) == Later(First(b, max), |noise|)
  {
    var i := FindSof(b);
    FindSofAfter(noise, b);
    if First(b, max).Take? {
      SliceAfter(noise, b, i + 2, i + 2 + b[i + 1]);
    }
  }

  // What a scan finds: these rules say it for every buffer.

  /** Bytes other than 0x2A in front change nothing that is found. */
  lemma NoiseIsSkipped(noise: seq<Byte>, b: seq<Byte>, max: MaxLength)
    requires 0x2A !in noise
    ensures Scan(noise + b, max).0 == Scan(b, max).0
  {
    FirstAfterNoise(noise, b, max);
    if !First(b, max).Wait? {
      SliceAfter(noise, b, First(b, max).used, |b|);
    }
  }

  /** A start byte with an unacceptable length is dropped, and the search goes on right behind it. */
  lemma BadLengthIsSkipped(n: Byte, b: seq<Byte>, max: MaxLength)
    requires n == 0 || n > max
    ensures Scan([0x2A, n] + b, max).0 == Scan([n] + b, max).0
  {
    assert ([0x2A, n] + b)[1..] == [n] + b;
    assert FindSof([0x2A, n] + b) == 0;
  }

  /** A whole packet is taken, and the search goes on behind it. */
  lemma PacketIsTaken(p: seq<Byte>, b: seq<Byte>, max: MaxLength)
    requires 1 <= |p| <= max
    ensures Scan([0x2A, |p|] + p + b, max) == ([p] + Scan(b, max).0, Scan(b, max).1)
  {
    TakePacket(p, b, max);
  }

  /** The beginning of a packet is kept until the rest of it has arrived. */
  lemma BeginningIsKept(n: Byte, part: seq<Byte>, max: MaxLength)
    requires 1 <= n <= max && |part| < n
    ensures Scan([0x2A, n] + part, max) == ([], [0x2A, n] + part)
    ensures Scan([0x2A], max) == ([], [0x2A]) && Scan([], max) == ([], [])
  {
    assert FindSof([0x2A, n] + part) == 0;
  }

  function Concat(chunks: seq<seq<Byte>>): seq<Byte> {
    if chunks == [] then [] else chunks[0] + Concat(chunks[1..])
  }

  /** Appends received chunks to the buffer, keeping only the last 4096 bytes. */
  function Fill(rx: seq<Byte>, chunks: seq<seq<Byte>>): seq<Byte>
    decreases |chunks|
  {
    if chunks == [] then rx else Fill(LastBytes(rx + chunks[0]), chunks[1..])
  }

  /** The last 4096 bytes, or all of them when there are no more. */
  function LastBytes(b: seq<Byte>): seq<Byte> {
    if |b| > MAX_BUFFER then b[|b| - MAX_BUFFER..] else b
  }

  lemma LastOfLast(a: seq<Byte>, b: seq<Byte>)
    ensures LastBytes(LastBytes(a) + b) == LastBytes(a + b)
  {
  }

  /** Trimming after every chunk keeps what trimming once at the end would keep. */
  lemma {:induction false} FillKeepsLast(rx: seq<Byte>, chunks: seq<seq<Byte>>)
    ensures Fill(rx, chunks) == if chunks == [] then rx else LastBytes(rx + Concat(chunks))
    ensures chunks != [] ==>
      var all := rx + Concat(chunks);
      Fill(rx, chunks) == all[if |all| > 4096 then |all| - 4096 else 0..]
    decreases |chunks|
  {
    if chunks == [] {
    } else {
      var b, rest := rx + chunks[0], Concat(chunks[1..]);
      assert b + rest == rx + Concat(chunks);
      FillKeepsLast(LastBytes(b), chunks[1..]);
      if chunks[1..] == [] {
        assert b + rest == b;
      } else {
        LastOfLast(b, rest);
      }
    }
  }

  lemma FillNext(rx: seq<Byte>, chunks: seq<seq<Byte>>, i: nat)
    requires i < |chunks|
    ensures Fill(rx, chunks[i..]) == Fill(LastBytes(rx + chunks[i]), chunks[i + 1..])
  {
    assert chunks[i..][1..] == chunks[i + 1..];
  }

  /** The trim loses nothing as long as everything held fits the bound. */
  lemma FillWithoutTrim(rx: seq<Byte>, chunks: seq<seq<Byte>>)
    requires |rx| + |Concat(chunks)| <= MAX_BUFFER
    ensures Fill(rx, chunks) == rx + Concat(chunks)
  {
    FillKeepsLast(rx, chunks);
    assert chunks == [] ==> rx + Concat(chunks) == rx;
  }

  // ---- runs of calls ----

  /** A way of reading a buffer: the packets in it and the tail to keep. */
  type Scanner = seq<Byte> -> (seq<seq<Byte>>, seq<Byte>)

  /** All packets returned by a run of calls, each given the chunks that arrived before it. */
  function ReadRun(scan: Scanner, rx: seq<Byte>, calls: seq<seq<seq<Byte>>>): seq<seq<Byte>>
    decreases |calls|
  {
    if calls == [] then []
    else
      var (packets, tail) := scan(Fill(rx, calls[0]));
      packets + ReadRun(scan, tail, calls[1..])
  }

  /** No call of the run holds more than 4096 bytes. */
  ghost predicate NeverTrims(scan: Scanner, rx: seq<Byte>, calls: seq<seq<seq<Byte>>>)
    decreases |calls|
  {
    calls == []
    || (&& |rx| + |Concat(calls[0])| <= MAX_BUFFER
        && NeverTrims(scan, scan(rx + Concat(calls[0])).1, calls[1..]))
  }

  function Arrived(calls: seq<seq<seq<Byte>>>): seq<Byte> {
    if calls == [] then [] else Concat(calls[0]) + Arrived(calls[1..])
  }

  /** Scanning `a`, then the kept tail with `b`, finds what scanning both at once finds. */
  ghost predicate SplitsAt(scan: Scanner, a: seq<Byte>, b: seq<Byte>) {
    scan(a).0 + scan(scan(a).1 + b).0 == scan(a + b).0
  }

  ghost predicate TailIsDone(scan: Scanner, a: seq<Byte>) {
    scan(scan(a).1).0 == []
  }

  /** One call more: its packets, then those of the calls that start from its tail. */
  lemma OneMoreCall(scan: Scanner, rx: seq<Byte>, calls: seq<seq<seq<Byte>>>)
    requires calls != [] && |rx| + |Concat(calls[0])| <= MAX_BUFFER
    requires SplitsAt(scan, rx + Concat(calls[0]), Arrived(calls[1..]))
    requires var tail := scan(rx + Concat(calls[0])).1;
      ReadRun(scan, tail, calls[1..]) == scan(tail + Arrived(calls[1..])).0
    ensures ReadRun(scan, rx, calls) == scan(rx + Arrived(calls)).0
  {
    FillWithoutTrim(rx, calls[0]);
    Associate(rx, Concat(calls[0]), Arrived(calls[1..]));
  }

  lemma {:induction false} IncrementalRuns(scan: Scanner, rx: seq<Byte>, calls: seq<seq<seq<Byte>>>)
    requires forall a, b :: SplitsAt(scan, a, b)
    requires forall a :: TailIsDone(scan, a)
    requires NeverTrims(scan, rx, calls) && scan(rx).0 == []
    ensures ReadRun(scan, rx, calls) == scan(rx + Arrived(calls)).0
    decreases |calls|
  {
    if calls == [] {
      assert rx + Arrived(calls) == rx;
    } else {
      var b := rx + Concat(calls[0]);
      assert TailIsDone(scan, b);
      IncrementalRuns(scan, scan(b).1, calls[1..]);
      OneMoreCall(scan, rx, calls);
    }
  }

  /** Chunk independence, for every run: the packets returned over all calls are the packets
      of the whole byte stream, however it was cut into calls and chunks. */
  lemma ChunksDoNotMatter(scan: Scanner, max: MaxLength, calls: seq<seq<seq<Byte>>>)
    requires forall b :: scan(b) == Scan(b, max)
    requires NeverTrims(scan, [], calls)
    ensures ReadRun(scan, [], calls) == Scan(Arrived(calls), max).0
  {
    forall a, b ensures SplitsAt(scan, a, b) {
      ScanSplits(a, b, max);
    }
    forall a ensures TailIsDone(scan, a) {
      ScanIsComplete(a, max);
    }
    assert scan([]).0 == [];
    IncrementalRuns(scan, [], calls);
    assert [] + Arrived(calls) == Arrived(calls);
  }

  // ---- sending ----

  function PacketBytes(data: seq<Byte>): seq<Byte>
    requires |data| <= 255
  {
    [SOF, |data|] + data
  }

  function SentBytes(payloads: seq<seq<Byte>>): seq<Byte>
    requires forall p :: p in payloads ==> |p| <= 255
  {
    if payloads == [] then [] else PacketBytes(payloads[0]) + SentBytes(payloads[1..])
  }

  lemma TakePacket(p: seq<Byte>, rest: seq<Byte>, max: MaxLength)
    requires 1 <= |p| <= max
    ensures First(PacketBytes(p) + rest, max) == Take(p, 2 + |p|)
    ensures (PacketBytes(p) + rest)[2 + |p|..] == rest
  {
  }

  /** Round trip: the concatenated output of sends scans to the payloads, with nothing left. */
  lemma {:induction false} ScanInvertsSends(payloads: seq<seq<Byte>>, max: MaxLength)
    requires forall p :: p in payloads ==> 1 <= |p| <= max
    ensures Scan(SentBytes(payloads), max) == (payloads, [])
  {
    if payloads == [] {
    } else {
      var p, rest := payloads[0], SentBytes(payloads[1..]);
      var b := SentBytes(payloads);
      ScanInvertsSends(payloads[1..], max);
      TakePacket(p, rest, max);
      assert payloads == [p] + payloads[1..];
    }
  }

  /** Some of the three writes of a packet was not taken whole. */
  predicate CutShort(data: seq<Byte>, a: nat, b: nat, n: nat) {
    a <= 1 && b <= 1 && n <= |data| && (a < 1 || b < 1 || n < |data|)
  }

  class NativeSerialPort {
    const max: MaxLength
    const opened_: bool
    const lossless: bool  // whether the device takes every byte it is given
    var rxBuffer: seq<Byte>
    var output: seq<Byte>

    constructor (max: MaxLength, opened_: bool, lossless: bool)
      ensures this.max == max && this.opened_ == opened_ && this.lossless == lossless && rxBuffer == [] && output == []
    {
      this.max, this.opened_, this.lossless, rxBuffer, output := max, opened_, lossless, [], [];
    }

    /** The operating system's write: may take only the first bytes. */
    method Write(data: seq<Byte>) returns (n: nat)
      modifies this`output
      ensures n <= |data| && output == old(output) + data[..n]
      ensures lossless ==> n == |data|
    {
      var taken: int := *;
      n := if 0 <= taken < |data| && !lossless then taken else |data|;
      output := output + data[..n];
    }

    /** Writes start byte, length and data; refuses a closed port and more than 255 bytes. All
        three are tried, and it succeeds exactly when each was written whole. */
    method Send(data: seq<Byte>) returns (ok: bool)
      modifies this`output
      ensures ok ==> opened_ && |data| <= 255 && output == old(output) + PacketBytes(data)
      ensures lossless ==> ok == (opened_ && |data| <= 255)
      ensures !opened_ || |data| > 255 ==> !ok && output == old(output)
      ensures opened_ && |data| <= 255 && !ok ==> exists a: nat, b: nat, n: nat ::
        CutShort(data, a, b, n) && output == old(output) + [SOF][..a] + [|data|][..b] + data[..n]
    {
      if !opened_ { return false; }
      if |data| > 255 { return false; }
      var w1 := Write([SOF]);
      var w2 := Write([|data|]);
      var w3 := Write(data);
      ok := w1 == 1 && w2 == 1 && w3 == |data|;
      if ok {
        assert output == old(output) + PacketBytes(data);
      } else {
        assert CutShort(data, w1, w2, w3);
      }
    }

    /** Appends one chunk and trims the buffer to its bound. */
    method Receive(chunk: seq<Byte>)
      modifies this`rxBuffer
      ensures rxBuffer == LastBytes(old(rxBuffer) + chunk)
    {
      rxBuffer := rxBuffer + chunk;
      if |rxBuffer| > MAX_BUFFER {
        rxBuffer := rxBuffer[|rxBuffer| - MAX_BUFFER..];
      }
    }

    /** Appends the chunks that have arrived, trimming the buffer to its bound. */
    method Accumulate(arrived: seq<seq<Byte>>)
      modifies this`rxBuffer
      ensures rxBuffer == Fill(old(rxBuffer), arrived)
      ensures arrived == [] ==> rxBuffer == old(rxBuffer)
      ensures arrived != [] ==>
        var all := old(rxBuffer) + Concat(arrived);
        rxBuffer == all[if |all| > 4096 then |all| - 4096 else 0..]
    {
      ghost var was := rxBuffer;
      for i := 0 to |arrived|
        invariant Fill(rxBuffer, arrived[i..]) == Fill(was, arrived)
      {
        FillNext(rxBuffer, arrived, i);
        Receive(arrived[i]);
      }
      FillKeepsLast(was, arrived);
    }

    /** One decision of the parse loop at `consume`, by absolute positions in the buffer. */
    method NextAction(consume: nat) returns (action: Action)
      requires consume <= |rxBuffer|
      ensures action == First(rxBuffer[consume..], max)
    {
      ghost var b := rxBuffer[consume..];
      var sofPos := consume + FindSof(rxBuffer[consume..]);
      if sofPos == |rxBuffer| { return Wait; }
      if |rxBuffer| < sofPos + 2 { return Wait; }
      var length := rxBuffer[sofPos + 1];
      assert length == b[sofPos - consume + 1];
      if length == 0 || length > max { return Drop(sofPos + 1 - consume); }
      if |rxBuffer| < sofPos + 2 + length { return Wait; }
      var frame := rxBuffer[sofPos + 2..sofPos + 2 + length];
      assert frame == b[sofPos + 2 - consume..sofPos + 2 + length - consume];
      return Take(frame, sofPos + 2 + length - consume);
    }

    /** Drains the chunks that have arrived into the buffer, extracts every complete packet,
        and keeps the rest for the next call. */
    method Read(arrived: seq<seq<Byte>>) returns (packets: seq<seq<Byte>>)
      modifies this`rxBuffer
      ensures !opened_ ==> packets == [] && rxBuffer == old(rxBuffer)
      ensures opened_ ==> (packets, rxBuffer) == Scan(Fill(old(rxBuffer), arrived), max)
    {
      packets := [];
      if !opened_ { return; }
      Accumulate(arrived);
      ghost var whole := rxBuffer;
      assert whole[0..] == whole && [] + Scan(whole, max).0 == Scan(whole, max).0;
      var consume: nat := 0;
      var action := NextAction(consume);
      while !action.Wait?
        invariant rxBuffer == whole && consume <= |whole| && action == First(whole[consume..], max)
        invariant Resumed(whole, consume, packets, max) == Scan(whole, max)
        decreases |whole| - consume
      {
        ResumeStep(whole, consume, packets, max);
        if action.Take? {
          packets := packets + [action.packet];
        }
        consume := consume + action.used;
        action := NextAction(consume);
      }
      ResumeEnd(whole, consume, packets, max);
      rxBuffer := rxBuffer[consume..];
    }
  }

  /** A parse loop that has got as far as `consume` and found some packets, run to its end. */
  function Resumed(b: seq<Byte>, consume: nat, packets: seq<seq<Byte>>, max: MaxLength): (seq<seq<Byte>>, seq<Byte>)
    requires consume <= |b|
  {
    (packets + Scan(b[consume..], max).0, Scan(b[consume..], max).1)
  }

  lemma ResumeStep(b: seq<Byte>, consume: nat, packets: seq<seq<Byte>>, max: MaxLength)
    requires consume <= |b| && !First(b[consume..], max).Wait?
    ensures var action := First(b[consume..], max);
      var more := if action.Take? then packets + [action.packet] else packets;
      consume + action.used <= |b|
      && Resumed(b, consume, packets, max) == Resumed(b, consume + action.used, more, max)
  {
    var action := First(b[consume..], max);
    assert b[consume..][action.used..] == b[consume + action.used..];
    if action.Take? {
      var rest := Scan(b[consume + action.used..], max).0;
      assert packets + ([action.packet] + rest) == (packets + [action.packet]) + rest;
    }
  }

  lemma ResumeEnd(b: seq<Byte>, consume: nat, packets: seq<seq<Byte>>, max: MaxLength)
    requires consume <= |b| && First(b[consume..], max).Wait?
    ensures Resumed(b, consume, packets, max) == (packets, b[consume..])
  {
    assert packets + [] == packets;
  }
}
