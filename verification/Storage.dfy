/** The SD card as the firmware uses it: whole files named by a path, changed only by
    all-or-nothing operations. On a card that is not `healthy` any operation may fail;
    a failed one leaves every file as it was. */
module Storage {
  import opened Bytes

  /** The names "/queue<port>" and "/mod<code>". */
  datatype Path = QueuePath(port: nat) | ModulePath(code: nat)

  /** An open file: its bytes and the cursor that seek, read and write share. */
  class File {
    const reliable: bool
    var content: seq<Byte>
    var cursor: nat

    constructor (content: seq<Byte>, reliable: bool)
      ensures this.content == content && this.reliable == reliable && cursor == 0
    {
      this.content, this.reliable, cursor := content, reliable, 0;
    }

    method SeekSet(position: nat)
      requires position <= |content|
      modifies this`cursor
      ensures cursor == position
    {
      cursor := position;
    }

    /** May read fewer bytes than asked; a reliable card reads at least one while any is left. */
    method Read(buffer: array<Byte>, length: nat) returns (n: nat)
      requires cursor <= |content| && length <= buffer.Length
      modifies this`cursor, buffer
      ensures n <= length && old(cursor) + n == cursor <= |content|
      ensures buffer[..n] == content[old(cursor)..cursor]
      ensures reliable && length > 0 && old(cursor) < |content| ==> n > 0
    {
      var available := Min(length, |content| - cursor);
      var got: int := *;
      n := if got < 0 || got > available || (reliable && got == 0) then available else got;
      for i := 0 to n
        invariant cursor == old(cursor)
        invariant buffer[..i] == content[cursor..cursor + i]
      {
        buffer[i] := content[cursor + i];
      }
      cursor := cursor + n;
    }

    method Write(buffer: array<Byte>, length: nat)
      requires length <= buffer.Length && cursor + length <= |content|
      modifies this
      ensures cursor == old(cursor) + length
      ensures content == old(content[..cursor]) + buffer[..length] + old(content[cursor + length..])
    {
      content := content[..cursor] + buffer[..length] + content[cursor + length..];
      cursor := cursor + length;
    }

    method Truncate(size: nat)
      requires size <= |content|
      modifies this
      ensures content == old(content[..size])
    {
      content := content[..size];
      cursor := Min(cursor, size);
    }

    /** Reads one chunk and writes it where it belongs. */
    method ShiftOnce(readPos: nat, writePos: nat, buffer: array<Byte>, ghost was: seq<Byte>, offset: nat)
      returns (n: nat)
      requires readPos == writePos + offset < |was| && Shifted(was, content, offset, writePos) && buffer.Length > 0
      modifies this, buffer
      ensures readPos + n <= |was| && Shifted(was, content, offset, writePos + n)
      ensures reliable ==> n > 0
    {
      SeekSet(readPos);
      ghost var before := content;
      n := Read(buffer, buffer.Length);
      if n == 0 { return; }
      ghost var chunk := buffer[..n];
      ShiftChunk(was, before, chunk, offset, writePos);
      SeekSet(writePos);
      Write(buffer, n);
      assert content == before[..writePos] + chunk + before[writePos + |chunk|..];
    }

    /** Drops the first `offset` bytes by shifting the rest down, chunk by chunk, inside
        the same file. Exact whatever sizes the chunk reads come in, and also when a chunk
        is longer than the shift; if a read stalls, what is left is still a run of old bytes
        that starts at `offset`. */
    method TruncateFromOffset(offset: nat)
      modifies this
      ensures offset >= |old(content)| ==> content == []
      ensures offset < |old(content)| && reliable ==> content == old(content[offset..])
      ensures offset < |old(content)| ==> offset + |content| <= |old(content)|
      ensures offset < |old(content)| ==> content == old(content)[offset..offset + |content|]
    {
      var total := |content|;
      if offset >= total {
        Truncate(0);
        return;
      }
      ghost var was := content;
      var buffer := new Byte[512];
      var readPos, writePos := offset, 0;
      while readPos < total
        invariant readPos == writePos + offset <= total == |was| && Shifted(was, content, offset, writePos)
      {
        var n := ShiftOnce(readPos, writePos, buffer, was, offset);
        if n == 0 { break; }
        readPos := readPos + n;
        writePos := writePos + n;
      }
      Truncate(writePos);
    }
  }

  /** The first `n` bytes are in their new place, and what has not been read is untouched. */
  ghost predicate Shifted(was: seq<Byte>, now: seq<Byte>, offset: nat, n: nat) {
    && |now| == |was| && offset + n <= |was|
    && now[..n] == was[offset..offset + n] && now[offset + n..] == was[offset + n..]
  }

  /** One turn of the shift: writing the chunk just read extends the shifted prefix and
      leaves the unread tail alone. */
  lemma ShiftChunk(was: seq<Byte>, now: seq<Byte>, chunk: seq<Byte>, offset: nat, writePos: nat)
    requires writePos + offset + |chunk| <= |was| && Shifted(was, now, offset, writePos)
    requires chunk == now[offset + writePos..offset + writePos + |chunk|]
    ensures Shifted(was, now[..writePos] + chunk + now[writePos + |chunk|..], offset, writePos + |chunk|)
  {
  }

  class StorageManager {
    const healthy: bool
    var files: map<Path, seq<Byte>>

    constructor (files: map<Path, seq<Byte>>, healthy: bool)
      ensures this.files == files && this.healthy == healthy
    {
      this.files, this.healthy := files, healthy;
    }

    /** The bytes of a file; a missing file reads as empty. */
    function Content(path: Path): seq<Byte>
      reads this
    {
      if path in files then files[path] else []
    }

    method Succeeds() returns (ok: bool)
      ensures healthy ==> ok
    {
      ok := *;
      ok := ok || healthy;
    }

    method FileExists(path: Path) returns (exists_: bool)
      ensures exists_ == (path in files)
    {
      exists_ := path in files;
    }

    method FileSize(path: Path) returns (size: nat)
      ensures size == |Content(path)|
    {
      size := |Content(path)|;
    }

    method CreateEmptyFile(path: Path) returns (ok: bool)
      modifies this
      ensures healthy ==> ok
      ensures files == if ok then old(files)[path := []] else old(files)
    {
      ok := Succeeds();
      if ok { files := files[path := []]; }
    }

    method DeleteFile(path: Path) returns (ok: bool)
      modifies this
      ensures ok ==> path in old(files)
      ensures healthy && path in old(files) ==> ok
      ensures files == if ok then old(files) - {path} else old(files)
    {
      if path !in files { return false; }
      ok := Succeeds();
      if ok { files := files - {path}; }
    }

    method AppendBytesToFile(path: Path, data: array<Byte>, length: nat) returns (ok: bool)
      requires length <= data.Length
      modifies this
      ensures length == 0 ==> !ok
      ensures healthy && length > 0 ==> ok
      ensures files == if ok then old(files)[path := old(Content(path)) + data[..length]] else old(files)
    {
      if length == 0 { return false; }
      ok := Succeeds();
      if ok { files := files[path := Content(path) + data[..length]]; }
    }

    /** Copies at most `length` bytes of a file, from `offset` on, and says how many. */
    method ReadFileRegionBytes(path: Path, offset: nat, out: array<Byte>, length: nat) returns (n: nat)
      requires length <= out.Length
      modifies out
      ensures n <= length
      ensures forall k :: n <= k < out.Length ==> out[k] == old(out[k])
      ensures offset > |Content(path)| ==> n == 0
      ensures offset <= |Content(path)| ==>
        && offset + n <= |Content(path)|
        && out[..n] == Content(path)[offset..offset + n]
        && (n == 0 || n == Min(length, |Content(path)| - offset))
      ensures healthy && offset <= |Content(path)| ==> n == Min(length, |Content(path)| - offset)
    {
      var content := Content(path);
      var ok := Succeeds();
      if !ok || offset > |content| { return 0; }
      n := Min(length, |content| - offset);
      for i := 0 to n
        invariant out[..i] == content[offset..offset + i]
        invariant forall k :: i <= k < out.Length ==> out[k] == old(out[k])
      {
        out[i] := content[offset + i];
      }
    }

    /** Opens the file, shifts it down, and stores it back. */
    method TruncateFileFromOffset(path: Path, offset: nat) returns (ok: bool)
      modifies this
      ensures ok ==> path in old(files)
      ensures healthy && path in old(files) ==> ok
      ensures !ok ==> files == old(files)
      ensures ok ==> path in files && files - {path} == old(files) - {path}
      ensures ok && offset >= |old(Content(path))| ==> files[path] == []
      ensures ok && offset < |old(Content(path))| ==>
        offset + |files[path]| <= |old(Content(path))|
        && files[path] == old(Content(path))[offset..offset + |files[path]|]
      ensures ok && healthy ==>
        files[path] == if offset < |old(files[path])| then old(files[path])[offset..] else []
    {
      if path !in files { return false; }
      ok := Succeeds();
      if !ok { return; }
      var file := new File(files[path], healthy);
      file.TruncateFromOffset(offset);
      files := files[path := file.content];
    }
  }
}
