/**
 The boundary writer of `db_changes/bundler/writer`: bytes gather in a buffer that spills to a lazily created file; a
 boundary that never spilled is handed over as a view of the buffer itself.
 */
module BufferedWriting {
  import opened Prelude

  newtype byte = x: int | 0 <= x < 256

  type Bytes = seq<byte>

  const DEFAULT_BUF_SIZE := 16 * 1024 * 1024

  /** The buffer size that `bufio` ends up with: a size that is not positive as a signed 64-bit int becomes 4096. */
  function BufferSize(bufferMaxSize: nat): (size: nat)
    requires bufferMaxSize < 0x1_0000_0000_0000_0000
    ensures size > 0
  {
    if bufferMaxSize == 0 then DEFAULT_BUF_SIZE
    else if bufferMaxSize >= 0x8000_0000_0000_0000 then 4096
    else bufferMaxSize
  }

  /** A file that is only created by its first write. */
  class LazyFile {
    var created: bool
    var content: Bytes

    constructor ()
      ensures !created && content == []
    {
      created, content := false, [];
    }

    method Write(p: Bytes)
      modifies this
      ensures created && content == old(content) + p
    {
      created := true;
      content := content + p;
    }
  }

  /** A view of the first bytes of a buffer; it sees later changes of the buffer. */
  datatype View = View(buf: array<byte>, len: nat) {
    ghost predicate Valid() {
      len <= buf.Length
    }

    function Bytes(): Bytes
      requires Valid()
      reads buf
    {
      buf[..len]
    }
  }

  /** What lies under the buffer: the file, or once it is told so a view of what it is handed. */
  class MemoryBufferedWriter {
    const file: LazyFile
    var memoryBuffer: Option<View>
    var nextWritesToMemory: bool
    var writtenToWrapped: bool

    constructor (file: LazyFile)
      ensures this.file == file && memoryBuffer == None && !nextWritesToMemory && !writtenToWrapped
    {
      this.file := file;
      memoryBuffer, nextWritesToMemory, writtenToWrapped := None, false, false;
    }

    /** The first bytes of a buffer; diverted to memory it keeps the buffer itself. */
    method WriteBuffer(buf: array<byte>, len: nat)
      requires len <= buf.Length && (nextWritesToMemory ==> memoryBuffer == None)
      modifies this, file
      ensures nextWritesToMemory == old(nextWritesToMemory)
      ensures old(nextWritesToMemory) ==>
                && memoryBuffer == Some(View(buf, len)) && writtenToWrapped == old(writtenToWrapped)
                && file.content == old(file.content) && file.created == old(file.created)
      ensures !old(nextWritesToMemory) ==>
                && memoryBuffer == old(memoryBuffer) && writtenToWrapped && file.created
                && file.content == old(file.content) + buf[..len]
    {
      if nextWritesToMemory {
        memoryBuffer := Some(View(buf, len));
        return;
      }
      writtenToWrapped := true;
      file.Write(buf[..len]);
    }
  }

  /** `bufio.Writer` over the memory-buffered writer. */
  class IntelligentWriter {
    const buf: array<byte>
    const under: MemoryBufferedWriter
    var n: nat
    ghost var Stream: Bytes
    ghost const Repr: set<object>

    /** What was written is the file's content followed by the buffer's. */
    ghost predicate Valid()
      reads this, Repr
    {
      && Repr == {this, buf, under, under.file} && buf.Length > 0
      && n <= buf.Length
      && !under.nextWritesToMemory && under.memoryBuffer == None
      && Stream == under.file.content + buf[..n]
      && (!under.writtenToWrapped ==> under.file.content == [] && !under.file.created)
    }

    /** Bytes are in the file exactly when all of them together do not fit the buffer. */
    ghost predicate SpilledWhenFull()
      reads this, under
    {
      under.writtenToWrapped <==> |Stream| > buf.Length
    }

    constructor (file: LazyFile, size: nat)
      requires size > 0 && !file.created && file.content == []
      ensures Valid() && fresh(Repr - {file}) && file in Repr && Stream == []
      ensures under.file == file && buf.Length == size && SpilledWhenFull()
    {
      var b := new byte[size];
      var u := new MemoryBufferedWriter(file);
      buf, under, n, Stream := b, u, 0, [];
      Repr := {this, b, u, file};
    }

    /** `bufio.Flush` while the file is still the target. */
    method Flush()
      requires Valid()
      modifies Repr
      ensures Valid() && n == 0 && Stream == old(Stream)
      ensures under.writtenToWrapped <==> old(under.writtenToWrapped) || old(n) > 0
    {
      if n > 0 {
        under.WriteBuffer(buf, n);
        n := 0;
      }
    }

    method CopyIn(p: Bytes)
      requires Valid() && n + |p| <= buf.Length
      modifies this`n, this`Stream, buf
      ensures Valid() && Stream == old(Stream) + p && n == old(n) + |p|
    {
      for i := 0 to |p|
        invariant n == old(n) && Valid()
        invariant buf[..n] == old(buf[..n]) && buf[n..n + i] == p[..i]
      {
        buf[n + i] := p[i];
      }
      assert buf[..n + |p|] == buf[..n] + buf[n..n + |p|];
      Associative(under.file.content, buf[..n], p);
      n := n + |p|;
      Stream := Stream + p;
    }

    /** `bufio.Write`: a full buffer is flushed, and what still does not fit goes straight to the file. */
    method Write(data: Bytes)
      requires Valid() && SpilledWhenFull()
      modifies Repr
      ensures Valid() && Stream == old(Stream) + data && SpilledWhenFull()
    {
      var p := data;
      while |p| > buf.Length - n
        invariant Valid() && Stream + p == old(Stream) + data
        invariant under.writtenToWrapped ==> |old(Stream)| + |data| > buf.Length
        decreases |p|, n
      {
        if n == 0 {
          under.writtenToWrapped := true;
          under.file.Write(p);
          Stream := Stream + p;
          p := [];
        } else {
          var room := buf.Length - n;
          assert p == p[..room] + p[room..];
          CopyIn(p[..room]);
          Flush();
          p := p[room..];
        }
      }
      CopyIn(p);
    }

    /** Without any spilled byte, the flush that is diverted to memory leaves a view of the buffer itself. */
    method MemoryData() returns (view: Option<View>)
      requires Valid() && !under.writtenToWrapped
      modifies this`n, under, under.file
      ensures view.Some? ==> view.value.buf == buf && view.value.Valid() && view.value.Bytes() == Stream
      ensures (view.None? <==> Stream == []) && n == 0
    {
      under.nextWritesToMemory := true;
      if n > 0 {
        under.WriteBuffer(buf, n);
        n := 0;
      }
      view := under.memoryBuffer;
    }
  }

  /** A closed boundary, to be uploaded later. */
  datatype Uploadable = DataFile(view: Option<View>) | LocalFile(file: LazyFile) {
    ghost function Objects(): set<object> {
      match this
      case DataFile(None) => {}
      case DataFile(Some(v)) => {v.buf}
      case LocalFile(f) => {f}
    }

    ghost predicate Valid() {
      DataFile? && view.Some? ==> view.value.Valid()
    }

    /** The bytes that an upload would send now. */
    function Upload(): Bytes
      requires Valid()
      reads Objects()
    {
      match this
      case DataFile(None) => []
      case DataFile(Some(v)) => v.Bytes()
      case LocalFile(f) => f.content
    }
  }

  class BufferedIO {
    const bufferSize: nat
    var written: bool
    var activeFile: IntelligentWriter?
    ghost var Repr: set<object>

    ghost predicate Valid()
      reads this, Repr
    {
      && bufferSize > 0 && this !in Repr
      && (activeFile != null ==>
            && activeFile in Repr && activeFile.Repr == Repr && activeFile.Valid()
            && activeFile.SpilledWhenFull() && activeFile.buf.Length == bufferSize)
      && (activeFile == null ==> Repr == {})
    }

    /** The bytes written since the boundary was started. */
    ghost function Stream(): Bytes
      reads this, activeFile
    {
      if activeFile == null then [] else activeFile.Stream
    }

    constructor (bufferMaxSize: nat)
      requires bufferMaxSize < 0x1_0000_0000_0000_0000
      ensures Valid() && activeFile == null && !written && Repr == {}
      ensures bufferMaxSize == 0 ==> bufferSize == DEFAULT_BUF_SIZE
      ensures 0 < bufferMaxSize < 0x8000_0000_0000_0000 ==> bufferSize == bufferMaxSize
      ensures bufferMaxSize >= 0x8000_0000_0000_0000 ==> bufferSize == 4096
    {
      bufferSize := BufferSize(bufferMaxSize);
      written, activeFile, Repr := false, null, {};
    }

    method StartBoundary() returns (r: Result<()>)
      requires Valid()
      modifies this
      ensures Valid()
      ensures old(activeFile) != null ==>
                r == Err(FileAlreadyOpen) && activeFile == old(activeFile) && Repr == old(Repr)
                                          && written == old(written)
      ensures old(activeFile) == null ==> r == Ok(()) && activeFile != null && fresh(Repr) && Stream() == [] && !written
    {
      if activeFile != null {
        return Err(FileAlreadyOpen);
      }
      var file := new LazyFile();
      var writer := new IntelligentWriter(file, bufferSize);
      written, activeFile, Repr := false, writer, writer.Repr;
      r := Ok(());
    }

    method Write(data: Bytes) returns (r: Result<()>)
      requires Valid()
      modifies this`written, Repr
      ensures Valid() && Repr == old(Repr) && activeFile == old(activeFile)
      ensures old(activeFile) == null ==> r == Err(NoActiveFile) && written == old(written)
      ensures old(activeFile) != null ==> r == Ok(()) && Stream() == old(Stream()) + data && written
    {
      if activeFile == null {
        return Err(NoActiveFile);
      }
      written := true;
      activeFile.Write(data);
      r := Ok(());
    }

    function IsWritten(): bool
      reads this`written
    {
      written
    }

    /**
     Closing a boundary hands over exactly the bytes written since it was started, from memory or from the file. The
     writer gives up every object that the upload will read, so no later write can change those bytes.
     */
    method CloseBoundary() returns (r: Result<Uploadable>)
      requires Valid()
      modifies this`activeFile, this`Repr, Repr
      ensures Valid() && activeFile == null && Repr == {} && written == old(written)
      ensures old(activeFile) == null ==> r == Err(NoActiveFile)
      ensures old(activeFile) != null ==>
                && r.Ok? && r.value.Valid() && r.value.Objects() <= old(Repr) && r.value.Upload() == old(Stream())
                && (r.value.DataFile? <==> |old(Stream())| <= bufferSize)
    {
      if activeFile == null {
        return Err(NoActiveFile);
      }
      var writer := activeFile;
      if !writer.under.writtenToWrapped {
        var view := writer.MemoryData();
        r := Ok(DataFile(view));
      } else {
        writer.Flush();
        assert writer.Stream == writer.under.file.content + [];
        r := Ok(LocalFile(writer.under.file));
      }
      activeFile, Repr := null, {};
    }
  }
}
