/**
 `PyJpegSource` as an object: the buffer is a fixed-length array that the
 callbacks overwrite in place, and the window is kept as the integers
 `cursor` and `available` instead of the `next_input_byte` address. Every
 callback is proved to behave as the matching function of `JpegSource`.
 */
module JpegSourceObject {
  import opened ByteStream
  import opened Results
  import opened JpegSource

  class PyJpegSource {
    const buffer: array<Byte>
    var cursor: nat
    var available: nat
    var startOfFile: bool
    var warnings: nat
    var stream: Stream

    /** The adapter's state as a value. */
    function Model(): Source
      reads this, buffer
    {
      Source(buffer[..], cursor, available, startOfFile, warnings, stream)
    }

    /** `__init__`: allocates the `buf_size` byte buffer and borrows `file`. */
    constructor Create(file: Stream)
      ensures Model() == New(file)
      ensures fresh(buffer)
    {
      buffer := new Byte[Capacity](_ => 0);
      cursor := 0;
      available := 0;
      startOfFile := true;
      warnings := 0;
      stream := file;
      new;
      assert buffer[..] == seq(Capacity, _ => 0);
    }

    /** `init_source`. */
    method InitSource()
      requires Valid(Model())
      modifies this
      ensures Model() == Init(old(Model()))
    {
      stream := Rewind(stream);
      startOfFile := true;
    }

    /** `ctypes.memmove(self.buffer, ...)`: copies `chunk` over the front of the buffer. */
    method MoveToFront(chunk: seq<Byte>)
      requires |chunk| <= buffer.Length
      modifies buffer
      ensures buffer[..] == chunk + old(buffer[..])[|chunk|..]
    {
      var i := 0;
      while i < |chunk|
        invariant i <= |chunk|
        invariant forall j :: 0 <= j < i ==> buffer[j] == chunk[j]
        invariant forall j :: i <= j < buffer.Length ==> buffer[j] == old(buffer[j])
      {
        buffer[i] := chunk[i];
        i := i + 1;
      }
    }

    /** `fill_input_buffer`: `Err` is the `error_exit` path. */
    method FillInputBuffer() returns (r: Result<bool, JpegError>)
      requires Valid(Model())
      modifies this, buffer
      ensures Fill(old(Model())).Ok? ==> r == Ok(true) && Model() == Fill(old(Model())).value
      ensures Fill(old(Model())).Err? ==> r == Err(Fill(old(Model())).error) && Model() == old(Model())
    {
      ghost var before := Model();
      var (chunk, st) := Read(stream, Capacity);
      stream := st;
      MoveToFront(chunk);
      ghost var moved := chunk + before.buffer[|chunk|..];
      if |chunk| == 0 {
        assert stream == before.stream && buffer[..] == before.buffer;
        if startOfFile {
          assert Fill(before) == Err(InputEmpty);
          return Err(InputEmpty);
        }
        warnings := warnings + 1;
        buffer[0] := MarkerPrefix;
        buffer[1] := JpegEoi;
        cursor := 0;
        available := 2;
        startOfFile := false;
        assert buffer[..] == FakeEoi + moved[2..];
        assert Fill(before) == Ok(Source(FakeEoi + moved[2..], 0, 2, false, before.warnings + 1, st));
      } else {
        cursor := 0;
        available := |chunk|;
        startOfFile := false;
        assert Fill(before) == Ok(Source(moved, 0, |chunk|, false, before.warnings, st));
      }
      return Ok(true);
    }

    /** `skip_input_data`: refills until the rest of the skip fits the window. */
    method SkipInputData(numBytes: int) returns (r: Result<(), JpegError>)
      requires Valid(Model())
      modifies this, buffer
      ensures Skip(old(Model()), numBytes).Ok? ==> r == Ok(()) && Model() == Skip(old(Model()), numBytes).value
      ensures Skip(old(Model()), numBytes).Err? ==>
        r == Err(Skip(old(Model()), numBytes).error) && Model() == old(Model())
    {
      if numBytes <= 0 {
        return Ok(());
      }
      var n := numBytes;
      while n > available
        invariant Valid(Model()) && n > 0
        invariant Skip(Model(), n) == Skip(old(Model()), numBytes)
        invariant Model() == old(Model()) || !startOfFile
        decreases n + (if available == 0 then 1 else 0)
      {
        n := n - available;
        var filled := FillInputBuffer();
        if filled.Err? {
          return Err(filled.error);
        }
      }
      cursor := cursor + n;
      available := available - n;
      return Ok(());
    }

    /** `term_source`: nothing to release; the file belongs to the caller. */
    method TermSource()
      requires Valid(Model())
      ensures Model() == old(Model())
    {
    }
  }
}
