/** The Arduino serial port: frames out, and a resynchronising frame reader that feeds the
    packet queue. */
module SerialPort {
  import opened Bytes
  import opened BinaryFrame
  import opened QueueSpec
  import PQ = PacketQueue

  const SERIAL_PORT := 4

  // ---- the line, as a sender and noise leave it ----

  /** A stray byte, or a frame whose last byte may have been damaged. */
  datatype Item = Noise(b: Byte) | Packet(payload: Payload, ts: U32, footer: Byte)

  predicate WellFormedItem(i: Item) {
    match i
    case Noise(b) => b != START_BYTE
    case Packet(payload, _, _) => |payload| <= MAX_PAYLOAD
  }

  predicate WellFormed(items: seq<Item>) {
    forall i :: 0 <= i < |items| ==> WellFormedItem(items[i])
  }

  function ItemBytes(i: Item): seq<Byte> {
    match i
    case Noise(b) => [b]
    case Packet(payload, ts, footer) => Header(|payload|, ts) + (payload + [footer])
  }

  function Stream(items: seq<Item>): seq<Byte> {
    if items == [] then [] else ItemBytes(items[0]) + Stream(items[1..])
  }

  /** An empty payload is not worth queueing. */
  function Queued(payload: Payload): seq<Payload> {
    if payload == [] then [] else [payload]
  }

  /** The payloads to queue from the undamaged frames, in order. */
  function Intact(items: seq<Item>): seq<Payload> {
    if items == [] then []
    else if items[0].Packet? && items[0].footer == END_BYTE then Queued(items[0].payload) + Intact(items[1..])
    else Intact(items[1..])
  }

  lemma {:induction false} IntactAppend(xs: seq<Item>, ys: seq<Item>)
    ensures Intact(xs + ys) == Intact(xs) + Intact(ys)
  {
    if xs == [] {
      assert xs + ys == ys;
    } else {
      assert (xs + ys)[1..] == xs[1..] + ys;
      IntactAppend(xs[1..], ys);
    }
  }

  /** What a clean line may carry: any byte but 0xAA, and frames of up to 2040 payload bytes with any
      timestamp, undamaged or with another last byte. */
  lemma LineCarries(i: Item)
    ensures WellFormedItem(i) <==>
      match i
      case Noise(b) => b != 0xAA
      case Packet(payload, _, _) => |payload| <= 2040
    ensures i.Packet? ==> ItemBytes(i) == Frame(i.payload, i.ts)[..|i.payload| + 7] + [i.footer]
  {
    if i.Packet? {
      Associate(Header(|i.payload|, i.ts), i.payload, [i.footer]);
    }
  }

  /** Item by item: a frame that ends in 0x55 gives its payload unless that is empty, a frame that
      ends in anything else gives nothing, and neither does a stray byte. */
  lemma IntactOne(i: Item)
    ensures Intact([i]) ==
      match i
      case Noise(_) => []
      case Packet(payload, _, footer) => if footer == 0x55 && |payload| > 0 then [payload] else []
  {
    assert [i][1..] == [];
  }

  function NonEmpty(payloads: seq<Payload>): seq<Payload> {
    if payloads == [] then [] else Queued(payloads[0]) + NonEmpty(payloads[1..])
  }

  /** What successful sends put on the line. */
  function SentItems(payloads: seq<Payload>): seq<Item> {
    seq(|payloads|, i requires 0 <= i < |payloads| => Packet(payloads[i], 0, END_BYTE))
  }

  function SentBytes(payloads: seq<Payload>): seq<Byte> {
    if payloads == [] then [] else Frame(payloads[0], 0) + SentBytes(payloads[1..])
  }

  /** When no payload is empty, these are all of them. */
  lemma {:induction false} NothingDropped(payloads: seq<Payload>)
    requires forall p :: p in payloads ==> |p| > 0
    ensures NonEmpty(payloads) == payloads
  {
    if payloads == [] {
    } else {
      NothingDropped(payloads[1..]);
      assert payloads == [payloads[0]] + payloads[1..];
    }
  }

  lemma SentItemsCons(payloads: seq<Payload>)
    requires payloads != []
    ensures SentItems(payloads) == [Packet(payloads[0], 0, END_BYTE)] + SentItems(payloads[1..])
  {
  }

  lemma StreamCons(i: Item, rest: seq<Item>)
    ensures Stream([i] + rest) == ItemBytes(i) + Stream(rest)
    ensures Intact([i] + rest) == ItemPayload(i) + Intact(rest)
    ensures WellFormedItem(i) && WellFormed(rest) ==> WellFormed([i] + rest)
  {
    assert ([i] + rest)[1..] == rest;
  }

  /** The bytes of any run of accepted sends form a well-formed stream whose intact payloads are
      the ones sent that were not empty; with `Sync`'s contract, receiving undoes sending. */
  lemma {:induction false} SentStreamReadsBack(payloads: seq<Payload>)
    requires forall p :: p in payloads ==> |p| <= 255
    ensures WellFormed(SentItems(payloads))
    ensures Stream(SentItems(payloads)) == SentBytes(payloads)
    ensures Intact(SentItems(payloads)) == NonEmpty(payloads)
  {
    if payloads == [] {
    } else {
      var p, rest := payloads[0], SentItems(payloads[1..]);
      SentStreamReadsBack(payloads[1..]);
      StreamCons(Packet(p, 0, END_BYTE), rest);
      SentItemsCons(payloads);
      Associate(Header(|p|, 0), p, [END_BYTE]);
    }
  }

  class Uart {
    var input: seq<Byte>
    var output: seq<Byte>

    method Available() returns (n: nat)
      ensures n == |input|
    {
      n := |input|;
    }

    method Peek() returns (b: Byte)
      requires input != []
      ensures b == input[0]
    {
      b := input[0];
    }

    method Read() returns (b: Byte)
      requires input != []
      modifies this`input
      ensures b == old(input)[0] && input == old(input)[1..]
    {
      b := input[0];
      input := input[1..];
    }

    /** Takes as many of the `n` bytes asked for as have been received. */
    method ReadBytes(buffer: array<Byte>, start: nat, n: nat) returns (k: nat)
      requires start + n <= buffer.Length
      modifies this`input, buffer
      ensures k == Min(n, |old(input)|) && input == old(input)[k..]
      ensures buffer[start..start + k] == old(input)[..k]
      ensures forall i :: 0 <= i < start || start + k <= i < buffer.Length ==> buffer[i] == old(buffer[i])
    {
      k := Min(n, |input|);
      for i := 0 to k
        invariant input == old(input)
        invariant buffer[start..start + i] == input[..i]
        invariant forall j :: 0 <= j < start || start + i <= j < buffer.Length ==> buffer[j] == old(buffer[j])
      {
        buffer[start + i] := input[i];
      }
      input := input[k..];
    }

    method Write(buffer: array<Byte>, n: nat)
      requires n <= buffer.Length
      modifies this`output
      ensures output == old(output) + buffer[..n]
    {
      output := output + buffer[..n];
    }
  }

  class SerialPort {
    const uart: Uart
    const queue: PQ.PacketQueue
    var received: nat  // bytes accumulated in the shared buffer

    constructor (uart: Uart, queue: PQ.PacketQueue)
      ensures this.uart == uart && this.queue == queue && received == 0
    {
      this.uart, this.queue, received := uart, queue, 0;
    }

    /** Sends one frame with a zero timestamp; refuses more than 255 bytes. */
    method Send(data: array<Byte>, start: nat, length: nat) returns (ok: bool)
      requires queue.Wired()
      requires start + length <= data.Length
      requires data == queue.tmp ==> start == 0 || start >= HEADER_SIZE
      modifies uart`output, queue.tmp
      ensures ok == (length <= 255)
      ensures ok ==> uart.output == old(uart.output) + Frame(old(data[start..start + length]), 0)
      ensures !ok ==> uart.output == old(uart.output)
    {
      if length > 255 { return false; }
      var wrapOk := WrapInPlace(queue.tmp, TMP_BUFFER_SIZE, data, start, length, 0);
      if !wrapOk { return false; }
      uart.Write(queue.tmp, RequiredSize(length));
      return true;
    }

    /** Unwraps the frame in the buffer and queues its payload; false if there is no frame. */
    method StoreFrame() returns (unwrapped: bool)
      requires queue.Valid() && received <= TMP_BUFFER_SIZE
      modifies queue, queue.storage, queue.tmp, queue.writeOffset
      ensures queue.Valid()
      ensures OthersUnchanged(old(queue.q), queue.q)
      ensures unwrapped == Parse(old(queue.tmp[..received])).Some?
      ensures !unwrapped ==> queue.q == old(queue.q)
      ensures unwrapped && queue.storage.healthy ==>
        Grew(old(queue.q), queue.q, Queued(Parse(old(queue.tmp[..received])).value.payload))
    {
      var view := Unwrap(queue.tmp, received);
      if view == None { return false; }
      ghost var was := queue.q;
      var ok, ts := queue.Push(SERIAL_PORT, queue.tmp, view.value.start, view.value.length);
      return true;
    }

    /** Reads the rest of a frame whose header is in the buffer, and queues its payload.
        When the whole of it has been received, the frame's bytes are consumed exactly and
        the payload is queued if and only if the end byte is right. */
    method ReceiveBody(left: nat)
      requires queue.Valid()
      requires 0 < left && received + left <= TMP_BUFFER_SIZE
      modifies this, uart`input, queue, queue.storage, queue.tmp, queue.writeOffset
      ensures queue.Valid() && received == 0
      ensures |uart.input| <= |old(uart.input)|
      ensures OthersUnchanged(old(queue.q), queue.q)
      ensures Whole(old(queue.tmp[..]), old(received), left, old(uart.input)) ==> uart.input == old(uart.input)[left..]
      ensures Whole(old(queue.tmp[..]), old(received), left, old(uart.input)) && queue.storage.healthy ==>
        Grew(old(queue.q), queue.q, BodyPayload(old(uart.input), left))
    {
      var bytesLeft := left;
      ghost var header, input := queue.tmp[..], uart.input;
      ghost var whole := Whole(header, received, left, input);
      while bytesLeft > 0
        invariant queue.Valid()
        invariant received + bytesLeft <= TMP_BUFFER_SIZE
        invariant |uart.input| <= |input|
        invariant OthersUnchanged(old(queue.q), queue.q)
        invariant bytesLeft == left ==>
          received == old(received) && uart.input == input && queue.tmp[..] == header && queue.q == old(queue.q)
        invariant whole && bytesLeft < left ==> bytesLeft == 0 && uart.input == input[left..]
        invariant whole && bytesLeft < left && queue.storage.healthy ==>
          Grew(old(queue.q), queue.q, BodyPayload(input, left))
        decreases bytesLeft
      {
        var k := uart.ReadBytes(queue.tmp, received, bytesLeft);
        received := received + k;
        bytesLeft := bytesLeft - k;
        if k == 0 || k < bytesLeft {
          var more := uart.Available();
          if more > 0 { continue; }
          break;
        }
        if whole { BodyParses(header, queue.tmp[..received], input, left); }
        var unwrapped := StoreFrame();
        if !unwrapped { break; }
      }
      received := 0;
    }

    /** One turn of `sync` at a start byte: header, then body. `stop` ends the loop. Given a
        whole frame and an empty buffer, it consumes that frame and nothing else. */
    method ReceiveFrame(ghost item: Item, ghost rest: seq<Byte>) returns (stop: bool)
      requires queue.Valid() && received <= TMP_BUFFER_SIZE && uart.input != []
      modifies this, uart`input, queue, queue.storage, queue.tmp, queue.writeOffset
      ensures queue.Valid() && received <= TMP_BUFFER_SIZE
      ensures !stop ==> |uart.input| < |old(uart.input)|
      ensures OthersUnchanged(old(queue.q), queue.q)
      ensures AtPacket(item, rest, old(received), old(uart.input)) ==> !stop && received == 0 && uart.input == rest
      ensures AtPacket(item, rest, old(received), old(uart.input)) && queue.storage.healthy ==>
        Grew(old(queue.q), queue.q, ItemPayload(item))
    {
      ghost var whole, input := AtPacket(item, rest, received, uart.input), uart.input;
      if HEADER_SIZE > TMP_BUFFER_SIZE - received {
        received := 0;
        return true;
      }
      var n := uart.ReadBytes(queue.tmp, received, HEADER_SIZE);
      received := received + n;
      if n != HEADER_SIZE {
        var more := uart.Available();
        return more == 0;
      }
      if whole { HeaderRead(item, queue.tmp[..], input, rest); }
      // A whole header was read, so there is one to parse.
      var header := ParseHeader(queue.tmp, received);
      var left := RequiredSize(header.value.2) - HEADER_SIZE;
      if RequiredSize(header.value.2) > TMP_BUFFER_SIZE || left > TMP_BUFFER_SIZE - received {
        received := 0;
        return false;
      }
      ReceiveBody(left);
      return false;
    }

    /** Turns received bytes into queued packets. On a line that carries frames of up to 2040
        payload bytes, damaged or not, with stray bytes other than 0xAA between them, it reads
        everything, queues exactly the intact payloads in order (empty ones are dropped), and starts clean next time. */
    method Sync(ghost items: seq<Item>) returns (ok: bool)
      requires queue.Valid() && received <= TMP_BUFFER_SIZE
      modifies this, uart`input, queue, queue.storage, queue.tmp, queue.writeOffset
      ensures ok && queue.Valid() && received <= TMP_BUFFER_SIZE
      ensures OthersUnchanged(old(queue.q), queue.q)
      ensures Clean(items, old(received), old(uart.input)) ==> uart.input == [] && received == 0
      ensures Clean(items, old(received), old(uart.input)) && queue.storage.healthy ==>
        Grew(old(queue.q), queue.q, Intact(items))
    {
      ghost var clean := Clean(items, received, uart.input);
      ghost var k := 0;
      while uart.input != []
        invariant queue.Valid() && received <= TMP_BUFFER_SIZE
        invariant OthersUnchanged(old(queue.q), queue.q)
        invariant clean ==> k <= |items| && Clean(items[k..], received, uart.input)
        invariant clean && queue.storage.healthy ==> Remaining(old(queue.q), queue.q, items, k)
        decreases |uart.input|
      {
        if clean { NextItem(items, k, uart.input); }
        var startByte := uart.Peek();
        if startByte != START_BYTE {
          var _ := uart.Read();
          received := 0;
        } else {
          ghost var before, was := queue.q, received;
          var stop := ReceiveFrame(if clean then items[k] else Noise(0), if clean then Stream(items[k + 1..]) else []);
          if clean && queue.storage.healthy { OneMore(old(queue.q), before, queue.q, items, k); }
          if stop { break; }
        }
        k := k + 1;
      }
      return true;
    }
  }

  /** The buffer is empty and the line starts with this very frame. */
  ghost predicate AtPacket(item: Item, rest: seq<Byte>, received: nat, input: seq<Byte>) {
    item.Packet? && WellFormedItem(item) && received == 0 && input == ItemBytes(item) + rest
  }

  lemma OneMore(start: Ports, before: Ports, now: Ports, items: seq<Item>, k: nat)
    requires k < |items| && Remaining(start, before, items, k)
    requires Grew(before, now, ItemPayload(items[k]))
    requires Intact(items[k..]) == ItemPayload(items[k]) + Intact(items[k + 1..])
    ensures Remaining(start, now, items, k + 1)
  {
  }

  /** Nothing half-read, and the line carries exactly these items. */
  ghost predicate Clean(items: seq<Item>, received: nat, input: seq<Byte>) {
    WellFormed(items) && received == 0 && input == Stream(items)
  }

  /** What has been queued so far and the intact payloads still to come make up the whole. */
  ghost predicate Remaining(before: Ports, now: Ports, items: seq<Item>, k: nat)
    requires k <= |items|
  {
    Payloads(now[SERIAL_PORT].records) + Intact(items[k..]) == Payloads(before[SERIAL_PORT].records) + Intact(items)
  }

  /** What the next byte on a clean line says about the items still to come. */
  lemma NextItem(items: seq<Item>, k: nat, input: seq<Byte>)
    requires k <= |items| && WellFormed(items[k..]) && input == Stream(items[k..]) != []
    ensures k < |items| && WellFormedItem(items[k]) && WellFormed(items[k + 1..])
    ensures input == ItemBytes(items[k]) + Stream(items[k + 1..])
    ensures input[0] == START_BYTE <==> items[k].Packet?
    ensures items[k].Noise? ==> input[1..] == Stream(items[k + 1..])
    ensures Intact(items[k..]) == ItemPayload(items[k]) + Intact(items[k + 1..])
  {
  }

  function ItemPayload(i: Item): seq<Payload> {
    if i.Packet? && i.footer == END_BYTE then Queued(i.payload) else []
  }

  /** Reading seven bytes at a packet loads its header and leaves its body next on the line. */
  lemma HeaderRead(i: Item, buffer: seq<Byte>, input: seq<Byte>, rest: seq<Byte>)
    requires i.Packet? && WellFormedItem(i) && input == ItemBytes(i) + rest
    requires |buffer| >= HEADER_SIZE && |input| >= HEADER_SIZE && buffer[..HEADER_SIZE] == input[..HEADER_SIZE]
    ensures buffer[..HEADER_SIZE] == Header(|i.payload|, i.ts)
    ensures var body, left := input[HEADER_SIZE..], |i.payload| + 1;
      Whole(buffer, HEADER_SIZE, left, body) && BodyPayload(body, left) == ItemPayload(i) && body[left..] == rest
  {
    var body, left := input[HEADER_SIZE..], |i.payload| + 1;
    var h := Header(|i.payload|, i.ts);
    assert input == h + (i.payload + [i.footer] + rest);
    assert body == i.payload + [i.footer] + rest;
    assert body[..left - 1] == i.payload;
    assert forall j :: 0 <= j < HEADER_SIZE ==> buffer[j] == buffer[..HEADER_SIZE][j] == h[j];
    assert h[5..7] == Encode16(|i.payload|);
    assert [h[5], h[6]] == h[5..7];
  }

  /** The buffer holds just a header, and everything it announces has been received. */
  ghost predicate Whole(buffer: seq<Byte>, received: nat, left: nat, input: seq<Byte>) {
    && |buffer| >= HEADER_SIZE == received && 0 < left <= |input| && left - 1 <= MAX_PAYLOAD
    && buffer[0] == START_BYTE && Decode16(buffer[5], buffer[6]) == left - 1
  }

  ghost function BodyPayload(input: seq<Byte>, left: nat): seq<Payload>
    requires 0 < left <= |input| && left - 1 <= MAX_PAYLOAD
  {
    if input[left - 1] == END_BYTE then Queued(input[..left - 1]) else []
  }

  ghost predicate OthersUnchanged(before: Ports, after: Ports) {
    forall p :: IsPort(p) && p != 4 ==> after[p] == before[p]
  }

  /** What is received goes to the queue of port type 4, the serial one. */
  ghost predicate Grew(before: Ports, after: Ports, extra: seq<Payload>) {
    Payloads(after[4].records) == Payloads(before[4].records) + extra
  }

  /** A header followed by a full body parses exactly when the end byte is right. */
  lemma BodyParses(header: seq<Byte>, buffer: seq<Byte>, input: seq<Byte>, left: nat)
    requires Whole(header, HEADER_SIZE, left, input) && |buffer| == HEADER_SIZE + left
    requires buffer[..HEADER_SIZE] == header[..HEADER_SIZE]
    requires buffer[HEADER_SIZE..] == input[..left]
    ensures Parse(buffer).Some? <==> input[left - 1] == END_BYTE
    ensures Parse(buffer).Some? ==> Parse(buffer).value.payload == input[..left - 1]
  {
  }
}
