/** The persistent packet queue: one append-only log file per port and three byte offsets
    into it. Every method is proved to act on the bytes as `QueueSpec.Step` acts on FIFO
    queues of records. */
module PacketQueue {
  import opened Bytes
  import opened BinaryFrame
  import opened Storage
  import opened QueueSpec

  function FrameOf(r: Record): seq<Byte> {
    Frame(r.payload, r.ts)
  }

  /** From byte `from` to its end, the file is exactly the frames of `records`. What lies
      before `from` may be anything. */
  ghost predicate Stored(file: seq<Byte>, from: nat, records: seq<Record>)
    decreases |records|
  {
    if records == [] then from == |file|
    else
      var r := records[0];
      && r.at == from && Storable(r.payload) && from + Size(r) <= |file|
      && file[from..from + Size(r)] == FrameOf(r)
      && Stored(file, from + Size(r), records[1..])
  }

  /** The representation invariant of one port, over plain values. */
  ghost predicate Represents(file: seq<Byte>, write: nat, read: nat, next: nat, q: PortQueue) {
    && write == q.end == |file|
    && Stored(file, read, q.records)
    && (q.peeked ==> q.records != [])
    && next == if q.peeked then read + Size(q.records[0]) else read
  }

  lemma {:induction false} StoredBounds(file: seq<Byte>, from: nat, records: seq<Record>)
    requires Stored(file, from, records)
    ensures from <= |file|
    ensures from == |file| <==> records == []
    ensures forall i :: 0 <= i < |records| ==> Storable(records[i].payload)
    decreases |records|
  {
    if records == [] {
    } else {
      StoredBounds(file, from + Size(records[0]), records[1..]);
      assert records == [records[0]] + records[1..];
    }
  }

  lemma SliceOfAppend(file: seq<Byte>, more: seq<Byte>, i: nat, j: nat)
    requires i <= j <= |file|
    ensures (file + more)[i..j] == file[i..j]
    ensures (file + more)[|file|..|file| + |more|] == more
  {
  }

  lemma StoredOne(file: seq<Byte>, r: Record)
    requires r.at == |file| && Storable(r.payload)
    ensures Stored(file + FrameOf(r), |file|, [r])
  {
    FrameLayout(r.payload, r.ts);
    SliceOfAppend(file, FrameOf(r), 0, 0);
    assert [r][1..] == [];
  }

  /** Appending a frame to the log appends its record to the queue. */
  lemma {:induction false} StoredAppend(file: seq<Byte>, from: nat, records: seq<Record>, r: Record)
    requires Stored(file, from, records)
    requires r.at == |file| && Storable(r.payload)
    ensures Stored(file + FrameOf(r), from, records + [r])
    decreases |records|
  {
    if records == [] {
      StoredOne(file, r);
      assert records + [r] == [r];
    } else {
      StoredAppend(file, from + Size(records[0]), records[1..], r);
      StoredBounds(file, from + Size(records[0]), records[1..]);
      assert (records + [r])[1..] == records[1..] + [r];
      SliceOfAppend(file, FrameOf(r), from, from + Size(records[0]));
    }
  }

  /** One buffer-sized read at the read offset is enough to parse the head record, and
      finds nothing when no record waits. */
  lemma HeadFitsOneRead(file: seq<Byte>, from: nat, records: seq<Record>)
    requires Stored(file, from, records)
    ensures from <= |file|
    ensures var region := file[from..from + Min(TMP_BUFFER_SIZE, |file| - from)];
      Parse(region) == if records == [] then None else Some(Decoded(records[0].payload, records[0].ts))
  {
    StoredBounds(file, from, records);
    var region := file[from..from + Min(TMP_BUFFER_SIZE, |file| - from)];
    if records == [] {
    } else {
      var n := Size(records[0]);
      assert region == region[..n] + region[n..];
      assert region[..n] == file[from..from + n];
      ParseInvertsFrame(records[0].payload, records[0].ts, region[n..]);
    }
  }

  /** read <= next <= write = file size, and next is the read offset or the end of the head
      frame; so the clamp in a skip has nothing to clamp. */
  lemma OffsetsOrdered(file: seq<Byte>, write: nat, read: nat, next: nat, q: PortQueue)
    requires Represents(file, write, read, next, q)
    ensures read <= next <= write == |file|
    ensures next == read || (q.records != [] && next == read + Size(q.records[0]))
    ensures read == write <==> q.records == []
  {
  }

  lemma SameHead(file: seq<Byte>, from: nat, xs: seq<Record>, ys: seq<Record>)
    requires Stored(file, from, xs) && Stored(file, from, ys)
    ensures xs == [] <==> ys == []
    ensures xs != [] ==> xs[0] == ys[0]
  {
    HeadFitsOneRead(file, from, xs);
    HeadFitsOneRead(file, from, ys);
  }

  /** The bytes and the offsets leave no choice: they determine the abstract queue. */
  lemma {:induction false} StoredUnique(file: seq<Byte>, from: nat, xs: seq<Record>, ys: seq<Record>)
    requires Stored(file, from, xs) && Stored(file, from, ys)
    ensures xs == ys
    decreases |xs|
  {
    SameHead(file, from, xs, ys);
    if xs == [] {
    } else {
      StoredUnique(file, from + Size(xs[0]), xs[1..], ys[1..]);
      assert xs == [xs[0]] + xs[1..] && ys == [ys[0]] + ys[1..];
    }
  }

  class PacketQueue {
    const storage: StorageManager
    const tmp: array<Byte>
    const writeOffset: array<nat>
    const readOffset: array<nat>
    const nextReadOffset: array<nat>
    ghost var q: Ports

    ghost predicate Wired() {
      && tmp.Length == TMP_BUFFER_SIZE
      && writeOffset.Length == readOffset.Length == nextReadOffset.Length == MAX_PORT + 1
      && writeOffset != readOffset && writeOffset != nextReadOffset && readOffset != nextReadOffset
    }

    ghost predicate PortValid(port: nat)
      requires Wired() && IsPort(port)
      reads this, storage, writeOffset, readOffset, nextReadOffset
    {
      && QueuePath(port) in storage.files
      && Represents(storage.files[QueuePath(port)], writeOffset[port], readOffset[port], nextReadOffset[port], q[port])
    }

    ghost predicate Valid()
      reads this, storage, writeOffset, readOffset, nextReadOffset
    {
      Wired() && forall port :: IsPort(port) ==> PortValid(port)
    }

    /** What happens to other files on the card, such as those of the module cache, does not
        matter to the queue. */
    twostate lemma OtherFilesDoNotMatter()
      requires old(Valid()) && unchanged(this, writeOffset, readOffset, nextReadOffset)
      requires forall port :: IsPort(port) && QueuePath(port) in old(storage.files) ==>
        QueuePath(port) in storage.files && storage.files[QueuePath(port)] == old(storage.files[QueuePath(port)])
      ensures Valid()
    {
      assert forall port :: IsPort(port) ==> old(PortValid(port)) && PortValid(port);
    }

    constructor (storage: StorageManager, tmp: array<Byte>)
      requires tmp.Length == TMP_BUFFER_SIZE
      ensures this.storage == storage && this.tmp == tmp && Wired()
      ensures fresh(writeOffset) && fresh(readOffset) && fresh(nextReadOffset)
    {
      this.storage, this.tmp := storage, tmp;
      writeOffset, readOffset, nextReadOffset := new nat[MAX_PORT + 1], new nat[MAX_PORT + 1], new nat[MAX_PORT + 1];
    }

    /** Starts one port empty, after whatever its file already holds. */
    method BeginPort(port: nat) returns (ok: bool)
      requires Wired() && IsPort(port)
      modifies this, storage, writeOffset, readOffset, nextReadOffset
      ensures storage.healthy ==> ok
      ensures ok ==> PortValid(port) && q[port] == PortQueue([], false, |old(storage.Content(QueuePath(port)))|)
      ensures forall p :: IsPort(p) && p != port ==>
        q[p] == old(q)[p] && writeOffset[p] == old(writeOffset[p]) && readOffset[p] == old(readOffset[p])
        && nextReadOffset[p] == old(nextReadOffset[p])
      ensures ok ==> storage.files == old(storage.files)[QueuePath(port) := old(storage.Content(QueuePath(port)))]
      ensures !ok ==> storage.files == old(storage.files)
    {
      var path := QueuePath(port);
      var exists_ := storage.FileExists(path);
      if exists_ {
        writeOffset[port] := storage.FileSize(path);
        readOffset[port] := storage.FileSize(path);
        nextReadOffset[port] := storage.FileSize(path);
      } else {
        var createOk := storage.CreateEmptyFile(path);
        if !createOk { return false; }
        writeOffset[port] := 0;
        readOffset[port] := 0;
        nextReadOffset[port] := 0;
      }
      q := q[port := PortQueue([], false, writeOffset[port])];
      return true;
    }

    /** Starts every port empty, after whatever its file already holds. */
    method Begin() returns (ok: bool)
      requires Wired()
      modifies this, storage, writeOffset, readOffset, nextReadOffset
      ensures storage.healthy ==> ok
      ensures ok ==> Valid()
      ensures ok ==> forall port :: IsPort(port) ==>
        q[port] == PortQueue([], false, |old(storage.Content(QueuePath(port)))|)
      ensures forall path :: path in old(storage.files) ==>
        path in storage.files && storage.files[path] == old(storage.files[path])
    {
      for port := 1 to MAX_PORT + 1
        invariant forall p :: 1 <= p < port ==>
          PortValid(p) && q[p] == PortQueue([], false, |old(storage.Content(QueuePath(p)))|)
        invariant forall p :: IsPort(p) && p >= port ==>
          storage.Content(QueuePath(p)) == old(storage.Content(QueuePath(p)))
        invariant forall path :: path in old(storage.files) ==>
          path in storage.files && storage.files[path] == old(storage.files[path])
      {
        var one := BeginPort(port);
        if !one { return false; }
      }
      return true;
    }

    /** Empties one port. The queue stays valid unless the card lost the file between
        deleting and recreating it, which a healthy card does not. */
    method Clear(port: nat) returns (ok: bool)
      requires Valid()
      modifies this, storage, writeOffset, readOffset, nextReadOffset
      ensures storage.healthy ==> ok == IsPort(port)
      ensures ok ==> IsPort(port) && storage.files == old(storage.files)[QueuePath(port) := []]
      ensures ok || (IsPort(port) ==> QueuePath(port) in storage.files) ==> Valid()
      ensures q == if ok then Step(old(q), QueueSpec.Clear(port)) else old(q)
    {
      if !IsPort(port) { return false; }
      var path := QueuePath(port);
      var present := storage.FileExists(path);
      if present {
        var deleted := storage.DeleteFile(path);
        if !deleted { return false; }
      }
      var createOk := storage.CreateEmptyFile(path);
      if !createOk { return false; }
      writeOffset[port] := 0;
      readOffset[port] := 0;
      nextReadOffset[port] := 0;
      q := q[port := EMPTY];
      assert PortValid(port);
      return true;
    }

    method IsPortEmpty(port: nat) returns (empty: bool)
      requires Valid()
      ensures empty == PortEmpty(q, port)
    {
      if !IsPort(port) { return true; }
      var present := storage.FileExists(QueuePath(port));
      if !present { return true; }
      assert PortValid(port);
      OffsetsOrdered(storage.files[QueuePath(port)], writeOffset[port], readOffset[port], nextReadOffset[port],
        q[port]);
      return writeOffset[port] == readOffset[port];
    }

    method ArePortsEmpty(ports: seq<nat>) returns (empty: bool)
      requires Valid()
      ensures empty == forall port :: port in ports ==> PortEmpty(q, port)
    {
      for i := 0 to |ports|
        invariant forall k :: 0 <= k < i ==> PortEmpty(q, ports[k])
      {
        if !IsPort(ports[i]) { continue; }
        var one := IsPortEmpty(ports[i]);
        if !one { return false; }
      }
      return true;
    }

    method IsEmpty() returns (empty: bool)
      requires Valid()
      ensures empty == forall port :: IsPort(port) ==> q[port].records == []
    {
      for port := 1 to MAX_PORT + 1
        invariant forall p :: 1 <= p < port ==> q[p].records == []
      {
        var one := IsPortEmpty(port);
        if !one { return false; }
      }
      return true;
    }

    /** Appends the frame at the start of the shared buffer to a port's log. */
    method AppendFrame(port: nat, ghost payload: Payload, ghost ts: U32, size: nat) returns (ok: bool)
      requires Valid() && IsPort(port) && Storable(payload)
      requires size == RequiredSize(|payload|) && tmp[..size] == Frame(payload, ts)
      modifies this, storage, writeOffset
      ensures Valid()
      ensures q == if ok then old(q)[port := PushOn(old(q)[port], payload, ts)] else old(q)
      ensures storage.healthy ==> ok
      ensures storage.files
        == if ok then old(storage.files)[QueuePath(port) := storage.files[QueuePath(port)]] else old(storage.files)
    {
      assert PortValid(port);
      ok := storage.AppendBytesToFile(QueuePath(port), tmp, size);
      if ok {
        PushKeepsPort(old(storage.files[QueuePath(port)]), writeOffset[port], readOffset[port], nextReadOffset[port],
          q[port], payload, ts);
        writeOffset[port] := writeOffset[port] + size;
        q := q[port := PushOn(q[port], payload, ts)];
        assert PortValid(port);
      }
    }

    /** Frames the caller's bytes in the shared buffer and appends them to the port's log.
        The bytes may themselves lie in the shared buffer, at its start or past a header. */
    method Push(port: nat, data: array?<Byte>, start: nat, length: U16) returns (ok: bool, ghost ts: U32)
      requires Valid()
      requires data != null ==> start + length <= data.Length
      requires data == tmp ==> start == 0 || start >= HEADER_SIZE
      modifies this, storage, tmp, writeOffset
      ensures Valid()
      ensures data == null ==> !ok && q == old(q)
      ensures data != null ==> q == Step(old(q), QueueSpec.Push(port, old(data[start..start + length]), ts, ok))
      ensures ok ==> IsPort(port) && 0 < length <= MAX_PAYLOAD
      ensures storage.healthy ==> ok == (data != null && IsPort(port) && 0 < length <= MAX_PAYLOAD)
      ensures storage.files
        == if ok then old(storage.files)[QueuePath(port) := storage.files[QueuePath(port)]] else old(storage.files)
    {
      ts := 0;
      if data == null || length == 0 { return false, ts; }
      if !IsPort(port) { return false, ts; }
      var epoch := GetEpoch();
      ts := epoch;
      ghost var payload: Payload := data[start..start + length];
      var wrapOk := WrapInPlace(tmp, TMP_BUFFER_SIZE, data, start, length, epoch);
      if !wrapOk { return false, ts; }
      ok := AppendFrame(port, payload, ts, RequiredSize(length));
    }

    /** Reads the log at a port's read offset into the shared buffer and finds the head
        record's payload there. */
    method LoadHead(port: nat) returns (view: Option<FrameView>)
      requires Valid() && IsPort(port)
      modifies tmp
      ensures view.Some? ==> q[port].records != []
      ensures view.Some? ==> view.value.start == HEADER_SIZE && view.value.start + view.value.length <= tmp.Length
      ensures view.Some? ==> tmp[view.value.start..view.value.start + view.value.length] == q[port].records[0].payload
      ensures storage.healthy && q[port].records != [] ==> view.Some?
    {
      assert PortValid(port);
      var path := QueuePath(port);
      HeadFitsOneRead(storage.files[path], readOffset[port], q[port].records);
      var size := storage.ReadFileRegionBytes(path, readOffset[port], tmp, TMP_BUFFER_SIZE);
      view := Unwrap(tmp, size);
    }

    /** Moves the offsets past the head record: the next-read offset always, the read offset
        when popping. */
    method Advance(port: nat, length: U16, pop: bool)
      requires Valid() && IsPort(port)
      requires q[port].records != [] && |q[port].records[0].payload| == length > 0
      modifies this, readOffset, nextReadOffset
      ensures Valid() && q == Step(old(q), Next(port, length, pop))
    {
      assert PortValid(port);
      nextReadOffset[port] := readOffset[port] + RequiredSize(length);
      if pop {
        readOffset[port] := nextReadOffset[port];
      }
      q := q[port := NextOn(q[port], length, pop).0];
      assert PortValid(port);
    }

    /** Reads the head record of a port, and removes it when popping. Returns its length, or
        0 when there is none, the output is too small, or the card did not answer. */
    method NextRecord(port: nat, out: array?<Byte>, maxOutSize: U16, pop: bool) returns (n: nat)
      requires Valid()
      requires out != null ==> maxOutSize <= out.Length
      modifies this, tmp, out, readOffset, nextReadOffset
      ensures Valid()
      ensures n == 0 ==> q == old(q)
      ensures n > 0 ==> out != null && q == Step(old(q), Next(port, maxOutSize, pop))
      ensures n > 0 ==> Returned(old(q), Next(port, maxOutSize, pop)).Some?
      ensures n > 0 ==> n <= out.Length && out[..n] == Returned(old(q), Next(port, maxOutSize, pop)).value.payload
      ensures out != null && storage.healthy ==> (n > 0 <==> Returned(old(q), Next(port, maxOutSize, pop)).Some?)
    {
      if out == null || maxOutSize == 0 { return 0; }
      if !IsPort(port) { return 0; }
      var view := LoadHead(port);
      if view == None { return 0; }
      var length := view.value.length;
      if length > maxOutSize { return 0; }
      MemCpy(out, 0, tmp, view.value.start, length);
      assert PortValid(port);
      StoredBounds(storage.files[QueuePath(port)], readOffset[port], q[port].records);
      Advance(port, length, pop);
      return length;
    }

    method PeekNext(port: nat, out: array?<Byte>, maxOutSize: U16) returns (n: nat)
      requires Valid()
      requires out != null ==> maxOutSize <= out.Length
      modifies this, tmp, out, readOffset, nextReadOffset
      ensures Valid()
      ensures n == 0 ==> q == old(q)
      ensures n > 0 ==> out != null && q == Step(old(q), Next(port, maxOutSize, false))
      ensures n > 0 ==> Returned(old(q), Next(port, maxOutSize, false)).Some?
      ensures n > 0 ==> n <= out.Length && out[..n] == Returned(old(q), Next(port, maxOutSize, false)).value.payload
      ensures out != null && storage.healthy ==> (n > 0 <==> Returned(old(q), Next(port, maxOutSize, false)).Some?)
    {
      n := NextRecord(port, out, maxOutSize, false);
    }

    /** Peeks or pops from the first listed port that has something waiting. */
    method NextFromPorts(ports: seq<nat>, out: array?<Byte>, maxOutSize: U16, pop: bool) returns (n: nat)
      requires Valid()
      requires out != null ==> maxOutSize <= out.Length
      modifies this, tmp, out, readOffset, nextReadOffset
      ensures Valid()
      ensures n == 0 ==> q == old(q)
      ensures n > 0 ==> out != null && q == Step(old(q), NextAny(ports, maxOutSize, pop))
      ensures n > 0 ==> Returned(old(q), NextAny(ports, maxOutSize, pop)).Some?
      ensures n > 0 ==> n <= out.Length && out[..n] == Returned(old(q), NextAny(ports, maxOutSize, pop)).value.payload
      ensures out != null && storage.healthy ==> (n > 0 <==> Returned(old(q), NextAny(ports, maxOutSize, pop)).Some?)
    {
      if ports == [] { return 0; }
      if out == null || maxOutSize == 0 { return 0; }
      for i := 0 to |ports|
        invariant Valid() && q == old(q)
        invariant FirstWaiting(q, ports) == FirstWaiting(q, ports[i..])
      {
        var empty := IsPortEmpty(ports[i]);
        if empty { continue; }
        n := NextRecord(ports[i], out, maxOutSize, pop);
        return;
      }
      return 0;
    }

    /** Moves past the head record, provided it was peeked. */
    method SkipToNextPacket(port: nat) returns (ok: bool)
      requires Valid()
      modifies this, readOffset
      ensures Valid()
      ensures q == Step(old(q), Skip(port))
      ensures ok == (IsPort(port) && SkipOn(old(q)[port]).1)
    {
      if !IsPort(port) { return false; }
      assert PortValid(port);
      OffsetsOrdered(storage.files[QueuePath(port)], writeOffset[port], readOffset[port], nextReadOffset[port],
        q[port]);
      if readOffset[port] == writeOffset[port] { return false; }
      if nextReadOffset[port] == readOffset[port] { return false; }
      readOffset[port] := Min(nextReadOffset[port], writeOffset[port]);  // the write offset caps it
      q := q[port := SkipOn(q[port]).0];
      assert PortValid(port);
      return true;
    }

    /** The head record's place in its log; the end of the log when nothing waits. */
    method GetReadOffset(port: nat) returns (offset: nat)
      requires Valid()
      ensures offset == if !IsPort(port) then 0 else HeadOffset(q[port])
    {
      if !IsPort(port) { return 0; }
      assert PortValid(port);
      return readOffset[port];
    }
  }

  function HeadOffset(q: PortQueue): nat {
    if q.records == [] then q.end else q.records[0].at
  }

  lemma PushKeepsPort(file: seq<Byte>, write: nat, read: nat, next: nat, q: PortQueue, payload: Payload, ts: U32)
    requires Represents(file, write, read, next, q) && Storable(payload)
    ensures Represents(file + Frame(payload, ts), write + RequiredSize(|payload|), read, next, PushOn(q, payload, ts))
  {
    FrameLayout(payload, ts);
    StoredAppend(file, read, q.records, Record(q.end, ts, payload));
    if q.peeked {
      assert PushOn(q, payload, ts).records[0] == q.records[0];
    }
  }
}
