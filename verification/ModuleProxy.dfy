/** The log-backed module cache: per module a file of frames, two offsets, and one decoded
    value held in memory for all of them. Its methods are proved to act as `CacheSpec`. */
module ModuleProxy {
  import opened Bytes
  import opened BinaryFrame
  import opened Storage
  import opened CacheSpec

  datatype Entry = Entry(key: nat, value: Wrapper)

  /** What kind of body the shared communication packet has. */
  datatype Body = Report | Request | Other

  /** What a port has been given to send, and whether it said that it sent it. */
  datatype Sending = Sending(port: nat, body: Body, entries: seq<Entry>, requested: seq<nat>, ok: bool)

  /** Nothing but requests has been sent in between. */
  ghost predicate OnlyRequests(before: seq<Sending>, after: seq<Sending>) {
    before <= after && forall k :: |before| <= k < |after| ==> after[k].body == Request
  }

  /** The communication packet in shared memory. Its body is a union: building another kind
      of body there overwrites the module entries of a report. */
  class SharedPacket {
    var body: Body
    var entries: seq<Entry>
    var requested: seq<nat>
    ghost var sent: seq<Sending>

    constructor ()
      ensures body == Other && entries == [] && sent == []
    {
      body, entries, requested, sent := Other, [], [], [];
    }

    method BeginReport()
      modifies this`body, this`entries, this`requested
      ensures body == Report && entries == [] && requested == []
    {
      body, entries, requested := Report, [], [];
    }

    method Append(e: Entry)
      modifies this`entries
      ensures entries == old(entries) + [e]
    {
      entries := entries + [e];
    }

    /** Leaves a request; what the entries now read as is up to the bytes of the request. */
    method BuildRequest(codes: seq<nat>)
      modifies this`body, this`entries, this`requested
      ensures body == Request && requested == codes
    {
      body, requested := Request, codes;
      entries := *;
    }

    /** Hands the packet to a port, which decides about the outcome. */
    method Send(port: nat) returns (ok: bool)
      modifies this`sent
      ensures sent == old(sent) + [Sending(port, body, entries, requested, ok)]
    {
      ok := *;
      sent := sent + [Sending(port, body, entries, requested, ok)];
    }
  }

  /** Between the two offsets lies exactly the frame of the fresh value, or nothing. */
  ghost predicate Holds(encode: Wrapper -> Option<seq<Byte>>, file: seq<Byte>, write: nat, read: nat,
      value: Option<Wrapper>)
  {
    && read <= write == |file|
    && match value
       case None => read == write
       case Some(w) =>
         && encode(w).Some? && write - read == RequiredSize(|encode(w).value|) <= TMP_BUFFER_SIZE
         && Parse(file[read..write]).Some? && Parse(file[read..write]).value.payload == encode(w).value
  }

  lemma AppendHolds(encode: Wrapper -> Option<seq<Byte>>, file: seq<Byte>, w: Wrapper, ts: U32)
    requires encode(w).Some? && RequiredSize(|encode(w).value|) <= TMP_BUFFER_SIZE
    ensures var longer := file + Frame(encode(w).value, ts);
      Holds(encode, longer, |file| + RequiredSize(|encode(w).value|), |file|, Some(w))
  {
    var f := Frame(encode(w).value, ts);
    FrameLayout(encode(w).value, ts);
    ParseInvertsFrame(encode(w).value, ts, []);
    assert (file + f)[|file|..|file| + |f|] == f == f + [];
  }

  ghost function ValueOf(c: Cache, code: nat): Option<Wrapper>
    requires Coherent(c) && IsCode(c, code)
  {
    if c.current[code].Some? then Some(c.log[c.current[code].value]) else None
  }

  /** A code's file and offsets hold its fresh value. */
  ghost predicate CodeHolds(encode: Wrapper -> Option<seq<Byte>>, files: map<Path, seq<Byte>>,
      write: seq<nat>, read: seq<nat>, c: Cache, code: nat)
    requires |write| == |read| == |c.current| && Coherent(c) && IsCode(c, code)
  {
    && ModulePath(code) in files
    && Holds(encode, files[ModulePath(code)], write[code], read[code], ValueOf(c, code))
  }

  /** The module files and the offset tables represent the cache. */
  ghost predicate Represents(encode: Wrapper -> Option<seq<Byte>>, files: map<Path, seq<Byte>>,
      write: seq<nat>, read: seq<nat>, c: Cache)
  {
    && |write| == |read| == |c.current| >= 2 && Coherent(c)
    && write[0] == read[0] == 0
    && forall code: nat :: IsCode(c, code) ==> CodeHolds(encode, files, write, read, c, code)
  }

  lemma StoreKeepsCode(encode: Wrapper -> Option<seq<Byte>>, files: map<Path, seq<Byte>>,
      write: seq<nat>, read: seq<nat>, c: Cache, w: Wrapper, ts: U32, k: nat)
    requires |write| == |read| == |c.current| && Coherent(c) && IsCode(c, w.which) && IsCode(c, k)
    requires CodeHolds(encode, files, write, read, c, w.which) && CodeHolds(encode, files, write, read, c, k)
    requires encode(w).Some? && RequiredSize(|encode(w).value|) <= TMP_BUFFER_SIZE
    ensures var code, bytes := w.which, encode(w).value;
      Coherent(Apply(c, Store(w)))
      && CodeHolds(encode, files[ModulePath(code) := files[ModulePath(code)] + Frame(bytes, ts)],
           write[code := write[code] + RequiredSize(|bytes|)], read[code := write[code]], Apply(c, Store(w)), k)
  {
    ApplyKeepsCoherent(c, Store(w));
    if k == w.which {
      AppendHolds(encode, files[ModulePath(k)], w, ts);
    } else {
      assert ValueOf(Apply(c, Store(w)), k) == ValueOf(c, k);
    }
  }

  lemma StoreKeeps(encode: Wrapper -> Option<seq<Byte>>, files: map<Path, seq<Byte>>,
      write: seq<nat>, read: seq<nat>, c: Cache, w: Wrapper, ts: U32)
    requires Represents(encode, files, write, read, c) && IsCode(c, w.which)
    requires encode(w).Some? && RequiredSize(|encode(w).value|) <= TMP_BUFFER_SIZE
    ensures CodeHolds(encode, files, write, read, c, w.which)
    ensures var code, bytes := w.which, encode(w).value;
      Represents(encode, files[ModulePath(code) := files[ModulePath(code)] + Frame(bytes, ts)],
        write[code := write[code] + RequiredSize(|bytes|)], read[code := write[code]], Apply(c, Store(w)))
  {
    var d, code, bytes := Apply(c, Store(w)), w.which, encode(w).value;
    assert CodeHolds(encode, files, write, read, c, code);
    var files' := files[ModulePath(code) := files[ModulePath(code)] + Frame(bytes, ts)];
    var write', read' := write[code := write[code] + RequiredSize(|bytes|)], read[code := write[code]];
    ApplyKeepsCoherent(c, Store(w));
    forall k: nat | IsCode(d, k) ensures CodeHolds(encode, files', write', read', d, k) {
      assert IsCode(c, k) && CodeHolds(encode, files, write, read, c, k);
      StoreKeepsCode(encode, files, write, read, c, w, ts, k);
    }
  }

  /** No file but that of one module has changed. */
  ghost predicate OthersKept(code: nat, before: map<Path, seq<Byte>>, after: map<Path, seq<Byte>>) {
    after - {ModulePath(code)} == before - {ModulePath(code)}
  }

  lemma ReplacedKeepsOthers(code: nat, before: map<Path, seq<Byte>>, content: seq<Byte>)
    ensures OthersKept(code, before, before[ModulePath(code) := content])
  {
  }

  /** Moving the read offset up to the write offset is giving up the fresh value. */
  lemma DropKeeps(encode: Wrapper -> Option<seq<Byte>>, files: map<Path, seq<Byte>>,
      write: seq<nat>, read: seq<nat>, c: Cache, code: nat, op: Op)
    requires Represents(encode, files, write, read, c) && IsCode(c, code)
    requires op == Invalidate(code) || (op == Forget(code) && !SlotHolds(c, code))
    ensures Represents(encode, files, write, read[code := write[code]], Apply(c, op))
  {
    var d, read' := Apply(c, op), read[code := write[code]];
    ApplyKeepsCoherent(c, op);
    forall k: nat | IsCode(d, k) ensures CodeHolds(encode, files, write, read', d, k) {
      assert IsCode(c, k) && CodeHolds(encode, files, write, read, c, k);
      if k != code {
        assert ValueOf(d, k) == ValueOf(c, k);
      }
    }
  }

  /** A lookup changes no file, no offset and no value. */
  lemma LookupKeeps(encode: Wrapper -> Option<seq<Byte>>, files: map<Path, seq<Byte>>,
      write: seq<nat>, read: seq<nat>, c: Cache, code: nat)
    requires Represents(encode, files, write, read, c)
    ensures Represents(encode, files, write, read, Apply(c, Get(code)))
  {
    var d := Apply(c, Get(code));
    ApplyKeepsCoherent(c, Get(code));
    forall k: nat | IsCode(d, k) ensures CodeHolds(encode, files, write, read, d, k) {
      assert IsCode(c, k) && CodeHolds(encode, files, write, read, c, k) && ValueOf(d, k) == ValueOf(c, k);
    }
  }

  class ModuleProxy {
    const storage: StorageManager
    const tmp: array<Byte>
    const shared: SharedPacket
    const codes: nat               // one more than the highest module code
    const devicePort: Option<nat>  // the port the sensing device is mapped to, if any
    const encode: Wrapper -> Option<seq<Byte>>
    const decode: seq<Byte> -> Option<Wrapper>
    const writeOffset: array<nat>
    const readOffset: array<nat>
    var loaded: Option<Wrapper>
    ghost var c: Cache

    /** What is decoded is what was encoded. */
    ghost predicate Lawful() {
      forall w :: encode(w).Some? ==> decode(encode(w).value) == Some(w)
    }

    ghost predicate Wired() {
      && tmp.Length == TMP_BUFFER_SIZE && codes >= 2
      && writeOffset.Length == readOffset.Length == codes && writeOffset != readOffset
    }

    ghost predicate Valid()
      reads this, storage, writeOffset, readOffset
    {
      && Wired() && |c.current| == codes
      && Represents(encode, storage.files, writeOffset[..], readOffset[..], c)
      && loaded == if c.slot == None then None else Some(c.log[c.slot.value])
    }

    constructor (storage: StorageManager, tmp: array<Byte>, shared: SharedPacket, codes: nat, devicePort: Option<nat>,
        encode: Wrapper -> Option<seq<Byte>>, decode: seq<Byte> -> Option<Wrapper>)
      requires tmp.Length == TMP_BUFFER_SIZE && codes >= 2
      ensures Wired() && fresh(writeOffset) && fresh(readOffset)
      ensures this.storage == storage && this.tmp == tmp && this.shared == shared && this.codes == codes
      ensures this.devicePort == devicePort && this.encode == encode && this.decode == decode
      ensures loaded == None && c == Fresh(codes)
      ensures forall i :: 0 <= i < codes ==> writeOffset[i] == readOffset[i] == 0
    {
      this.storage, this.tmp, this.shared, this.codes, this.devicePort := storage, tmp, shared, codes, devicePort;
      this.encode, this.decode := encode, decode;
      writeOffset := new nat[codes](_ => 0);
      readOffset := new nat[codes](_ => 0);
      loaded, c := None, Fresh(codes);
    }

    /** Starts with nothing fresh, after whatever the module files already hold. */
    method Begin() returns (ok: bool)
      requires Wired() && c == Fresh(codes) && loaded == None
      requires forall i :: 0 <= i < codes ==> writeOffset[i] == readOffset[i] == 0
      modifies storage, writeOffset, readOffset
      ensures ok ==> Valid()
      ensures storage.healthy ==> ok
      ensures forall path :: path in old(storage.files) ==>
        path in storage.files && storage.files[path] == old(storage.files[path])
    {
      for code := 1 to codes
        invariant forall path :: path in old(storage.files) ==>
          path in storage.files && storage.files[path] == old(storage.files[path])
        invariant writeOffset[0] == readOffset[0] == 0
        invariant forall k :: code <= k < codes ==> writeOffset[k] == readOffset[k] == 0
        invariant forall k: nat :: 1 <= k < code ==>
          ModulePath(k) in storage.files && writeOffset[k] == readOffset[k] == |storage.files[ModulePath(k)]|
      {
        var path := ModulePath(code);
        var present := storage.FileExists(path);
        if present {
          readOffset[code] := storage.FileSize(path);
          writeOffset[code] := storage.FileSize(path);
        } else {
          var createOk := storage.CreateEmptyFile(path);
          if !createOk { return false; }
        }
      }
      return true;
    }

    /** Puts an encoded module in the shared buffer and frames it where it lies. */
    method WrapEncoded(bytes: seq<Byte>) returns (ts: U32)
      requires Wired() && RequiredSize(|bytes|) <= TMP_BUFFER_SIZE
      modifies tmp
      ensures tmp[..RequiredSize(|bytes|)] == Frame(bytes, ts)
    {
      for i := 0 to |bytes|
        invariant forall k :: HEADER_SIZE <= k < HEADER_SIZE + i ==> tmp[k] == bytes[k - HEADER_SIZE]
      {
        tmp[HEADER_SIZE + i] := bytes[i];
      }
      assert tmp[HEADER_SIZE..HEADER_SIZE + |bytes|] == bytes;
      ts := GetEpoch();
      var _ := WrapInPlace(tmp, TMP_BUFFER_SIZE, tmp, HEADER_SIZE, |bytes|, ts);
    }

    /** Appends a module value to its file, and touches no other; it becomes the only fresh one
        of its code. */
    method StoreModule(w: Wrapper) returns (ok: bool)
      requires Valid()
      modifies this, storage, tmp, writeOffset, readOffset
      ensures Valid()
      ensures c == if ok then Apply(old(c), Store(w)) else old(c)
      ensures ok ==> IsCode(c, w.which)
      ensures OthersKept(w.which, old(storage.files), storage.files)
      ensures storage.healthy ==>
        ok == (1 <= w.which < codes && encode(w).Some? && RequiredSize(|encode(w).value|) <= TMP_BUFFER_SIZE)
    {
      if w.which < 1 || w.which >= codes { return false; }
      var encoded := encode(w);
      if encoded == None || RequiredSize(|encoded.value|) > TMP_BUFFER_SIZE { return false; }
      var ts := WrapEncoded(encoded.value);
      ok := Record(w, encoded.value, ts);
    }

    method Record(w: Wrapper, bytes: seq<Byte>, ghost ts: U32) returns (ok: bool)
      requires Valid() && IsCode(c, w.which) && encode(w) == Some(bytes) && RequiredSize(|bytes|) <= TMP_BUFFER_SIZE
      requires tmp[..RequiredSize(|bytes|)] == Frame(bytes, ts)
      modifies this, storage, writeOffset, readOffset
      ensures Valid()
      ensures c == if ok then Apply(old(c), Store(w)) else old(c)
      ensures OthersKept(w.which, old(storage.files), storage.files)
      ensures storage.healthy ==> ok
    {
      ghost var files := storage.files;
      ok := storage.AppendBytesToFile(ModulePath(w.which), tmp, RequiredSize(|bytes|));
      if ok {
        ReplacedKeepsOthers(w.which, files, old(storage.Content(ModulePath(w.which))) + Frame(bytes, ts));
        StoreKeeps(encode, files, writeOffset[..], readOffset[..], c, w, ts);
        Advance(w, RequiredSize(|bytes|));
      }
    }

    /** Moves a code's offsets to the record just appended. */
    method Advance(w: Wrapper, size: nat)
      requires Wired() && IsCode(c, w.which) && |c.current| == codes && Coherent(c)
      requires Represents(encode, storage.files, writeOffset[..][w.which := writeOffset[w.which] + size],
        readOffset[..][w.which := writeOffset[w.which]], Apply(c, Store(w)))
      requires loaded == if c.slot == None then None else Some(c.log[c.slot.value])
      modifies this, writeOffset, readOffset
      ensures Valid() && c == Apply(old(c), Store(w))
    {
      var end := writeOffset[w.which];
      readOffset[w.which] := end;
      writeOffset[w.which] := end + size;
      assert readOffset[..] == old(readOffset[..])[w.which := end];
      assert writeOffset[..] == old(writeOffset[..])[w.which := end + size];
      c := Apply(c, Store(w));
    }

    method IsModuleFresh(code: nat) returns (b: bool)
      requires Valid() && code < codes
      ensures b == (IsCode(c, code) && c.current[code].Some?)
    {
      assert code > 0 ==> IsCode(c, code);
      return readOffset[code] < writeOffset[code];
    }

    /** Reads and decodes the frame between a code's offsets. */
    method ReadBack(code: nat) returns (value: Option<Wrapper>)
      requires Valid() && Lawful() && IsCode(c, code) && c.current[code].Some?
      modifies tmp
      ensures value.Some? ==> value == ValueOf(c, code)
      ensures storage.healthy ==> value.Some?
    {
      var path := ModulePath(code);
      assert Holds(encode, storage.files[path], writeOffset[code], readOffset[code], ValueOf(c, code));
      var bytesRead := storage.ReadFileRegionBytes(path, readOffset[code], tmp, TMP_BUFFER_SIZE);
      if bytesRead == 0 { return None; }
      assert tmp[..bytesRead] == storage.files[path][readOffset[code]..writeOffset[code]];
      var view := Unwrap(tmp, bytesRead);
      // What was just read is a whole frame and decodes; nothing is lost after this point.
      return decode(tmp[view.value.start..view.value.start + view.value.length]);
    }

    /** Moves a code's read offset up to its write offset. */
    method GiveUpValue(code: nat, ghost op: Op)
      requires Wired() && |c.current| == codes && IsCode(c, code)
      requires Represents(encode, storage.files, writeOffset[..], readOffset[..], c)
      requires op == Invalidate(code) || (op == Forget(code) && !SlotHolds(c, code))
      modifies this`c, readOffset
      ensures Wired() && |c.current| == codes && c == Apply(old(c), op)
      ensures Represents(encode, storage.files, writeOffset[..], readOffset[..], c)
    {
      DropKeeps(encode, storage.files, writeOffset[..], readOffset[..], c, code, op);
      readOffset[code] := writeOffset[code];
      assert readOffset[..] == old(readOffset[..])[code := writeOffset[code]];
      c := Apply(c, op);
    }

    /** The fresh value of a code. A value that cannot be read back stops being fresh. */
    method GetIfFresh(code: nat) returns (value: Option<Wrapper>)
      requires Valid() && Lawful() && code < codes
      modifies this, tmp, readOffset
      ensures Valid()
      ensures value.Some? ==> Found(old(c), code).Some? && value.value == old(c).log[Found(old(c), code).value]
      ensures value.Some? ==> c == Apply(old(c), Get(code))
      ensures value.None? ==> !SlotHolds(old(c), code) && c == Apply(old(c), Forget(code))
      ensures storage.healthy ==> (value.Some? <==> Found(old(c), code).Some?)
    {
      if loaded.Some? && loaded.value.which == code { return loaded; }
      assert code > 0 ==> IsCode(c, code);
      if readOffset[code] == writeOffset[code] {
        assert IsCode(c, code) ==> c.current[code := None] == c.current;
        return None;
      }
      value := ReadBack(code);
      if value == None {
        GiveUpValue(code, Forget(code));
      } else {
        LookupKeeps(encode, storage.files, writeOffset[..], readOffset[..], c, code);
        loaded := value;
        c := Apply(c, Get(code));
      }
    }

    /** Marks a code as not fresh and clears the value in memory, whichever code it is of. */
    method InvalidateModule(code: nat)
      requires Valid()
      modifies this, readOffset
      ensures Valid() && c == Apply(old(c), Invalidate(code))
    {
      if code < 1 || code >= codes { return; }
      GiveUpValue(code, Invalidate(code));
      loaded := None;
    }

    /** Invalidates the listed codes, as many of them as there are module codes. */
    method InvalidateMultiple(list: seq<nat>)
      requires Valid()
      modifies this, readOffset
      ensures Valid() && c == InvalidateAll(old(c), list[..Min(|list|, codes - 1)])
    {
      var safeCount := Min(|list|, codes - 1);
      ghost var todo := list[..safeCount];
      for i := 0 to safeCount
        invariant Valid()
        invariant InvalidateAll(c, todo[i..]) == InvalidateAll(old(c), todo)
      {
        assert todo[i..][0] == list[i] && todo[i..][1..] == todo[i + 1..];
        InvalidateModule(list[i]);
      }
    }

    /** Asks the device for modules, as many of them as there are module codes; they are not fresh
        from now on. Without a port for the device nothing is invalidated and nothing sent, but the
        shared packet has already become the request. */
    method RequestMultipleModules(list: seq<nat>) returns (ok: bool)
      requires Valid()
      modifies this, readOffset, shared
      ensures Valid() && shared.body == Request && shared.requested == list[..Min(|list|, codes - 1)]
      ensures c == if devicePort.Some? then InvalidateAll(old(c), list[..Min(|list|, codes - 1)]) else old(c)
      ensures RequestSent(old(shared.sent), list[..Min(|list|, codes - 1)], ok)
    {
      shared.BuildRequest(list[..Min(|list|, codes - 1)]);
      if devicePort == None { return false; }
      InvalidateMultiple(list);
      ok := shared.Send(devicePort.value);
    }

    /** The request went to the device's port, once, and this is what the port said; without such a
        port nothing went out. */
    ghost predicate RequestSent(before: seq<Sending>, list: seq<nat>, ok: bool)
      reads shared
    {
      && OnlyRequests(before, shared.sent)
      && if devicePort == None then !ok && shared.sent == before
         else
           && |shared.sent| == |before| + 1
           && var last := shared.sent[|before|];
              last.port == devicePort.value && last.requested == list && last.ok == ok
    }

    method RequestModule(code: nat) returns (ok: bool)
      requires Valid()
      modifies this, readOffset, shared
      ensures Valid() && shared.body == Request && shared.requested == [code]
      ensures c == if devicePort.Some? then Apply(old(c), Invalidate(code)) else old(c)
      ensures RequestSent(old(shared.sent), [code], ok)
    {
      shared.BuildRequest([code]);
      if devicePort == None { return false; }
      InvalidateModule(code);
      ok := shared.Send(devicePort.value);
    }

    /** The fresh value of a code, or else a request for it. */
    method GetIfFreshOrRequestFromDevice(code: nat) returns (value: Option<Wrapper>)
      requires Valid() && Lawful() && code < codes
      modifies this, tmp, readOffset, shared
      ensures Valid()
      ensures value.Some? ==> Found(old(c), code).Some? && value.value == old(c).log[Found(old(c), code).value]
      ensures value.Some? ==> c == Apply(old(c), Get(code))
      ensures value.Some? ==> unchanged(shared)
      ensures storage.healthy ==> (value.Some? <==> Found(old(c), code).Some?)
      ensures value.None? ==> shared.body == Request && shared.requested == [code]
      ensures value.None? ==>
        var forgotten := Apply(old(c), Forget(code));
        c == if devicePort.Some? then Apply(forgotten, Invalidate(code)) else forgotten
      ensures value.None? ==> exists ok :: RequestSent(old(shared.sent), [code], ok)
      ensures OnlyRequests(old(shared.sent), shared.sent)
    {
      value := GetIfFresh(code);
      if value.Some? { return; }
      var ok := RequestModule(code);
      assert RequestSent(old(shared.sent), [code], ok);
    }
  }
}
