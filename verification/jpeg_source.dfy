/**
 The state and the callbacks of `PyJpegSource`, the pull-based byte source that
 feeds libjpeg's decompressor from a Python file. The decoder sees the window
 `buffer[cursor .. cursor + available]` (its `next_input_byte` and
 `bytes_in_buffer`) and calls `Fill` when the window is empty and `Skip` to
 discard marker payloads.
 */
module JpegSource {
  import opened ByteStream
  import opened Results

  /** `buf_size`: the fixed capacity of the adapter's buffer. */
  const Capacity: nat := 4096

  /** Every JPEG marker starts with 0xFF. */
  const MarkerPrefix: Byte := 0xFF

  /** `JPEG_EOI`, the End-of-Image marker code (Table B.1 of ITU-T T.81). */
  const JpegEoi: Byte := 0xD9

  /** The fake EOI marker inserted when the file ends before the image does. */
  const FakeEoi: seq<Byte> := [MarkerPrefix, JpegEoi]

  /** libjpeg error codes this adapter passes to `error_exit`. */
  datatype JpegError = InputEmpty  // JERR_INPUT_EMPTY

  /**
   The adapter: its buffer, the unread window inside it, whether no fill has
   completed since the last `init_source`, the number of warnings emitted
   through `emit_message(..., -1)`, and the borrowed file.
   */
  datatype Source = Source(
    buffer: seq<Byte>,
    cursor: nat,
    available: nat,
    startOfFile: bool,
    warnings: nat,
    stream: Stream)

  /** The buffer keeps its capacity and the window stays inside it. */
  predicate Valid(s: Source)
  {
    |s.buffer| == Capacity && s.cursor + s.available <= Capacity
  }

  /** The unread bytes the decoder can see without another fill. */
  function Window(s: Source): seq<Byte>
    requires Valid(s)
  {
    s.buffer[s.cursor..s.cursor + s.available]
  }

  /** Everything still to be delivered: the window, then the unread file. */
  function Pending(s: Source): seq<Byte>
    requires Valid(s)
  {
    Window(s) + Rest(s.stream)
  }

  /**
   The adapter as `__init__` leaves it: a zeroed buffer of `Capacity` bytes
   and an empty window (ctypes zero-initialises `jpeg_source_mgr`).
   */
  function New(file: Stream): (s: Source)
    ensures Valid(s) && |s.buffer| == Capacity
    ensures Window(s) == [] && Pending(s) == Rest(file)
    ensures s.warnings == 0 && s.stream == file && s.startOfFile
  {
    Source(seq(Capacity, _ => 0), 0, 0, true, 0, file)
  }

  /**
   `init_source`: rewinds the file, so the next fill reads from its first
   byte, and marks the start of the file. The window is left as it was.
   */
  function Init(s: Source): (r: Source)
    requires Valid(s)
    ensures Valid(r) && r.startOfFile
    ensures r.stream.data == s.stream.data && Rest(r.stream) == s.stream.data
    ensures Window(r) == Window(s) && r.warnings == s.warnings
  {
    s.(stream := Rewind(s.stream), startOfFile := true)
  }

  /**
   `fill_input_buffer`: reads up to `Capacity` bytes and copies them to the
   front of the buffer. An empty read at the start of the file is fatal;
   an empty read later emits one warning and exposes a fake EOI marker.
   The window always starts at 0 afterwards. `Ok` stands for the `True` the
   callback returns.
   */
  function Fill(s: Source): (r: Result<Source, JpegError>)
    requires Valid(s)
    ensures r.Err? <==> s.startOfFile && Remaining(s.stream) == 0
    ensures r.Err? ==> r.error == InputEmpty
    ensures r.Ok? ==> Valid(r.value) && r.value.cursor == 0 && r.value.available >= 1
    ensures r.Ok? ==> !r.value.startOfFile && r.value.stream.data == s.stream.data
    ensures r.Ok? ==> r.value.buffer[r.value.available..] == s.buffer[r.value.available..]
    ensures Remaining(s.stream) > 0 ==>
      && r.Ok?
      && r.value.available == Min(Capacity, Remaining(s.stream))
      && Window(r.value) + Rest(r.value.stream) == Rest(s.stream)
      && r.value.warnings == s.warnings
    ensures Remaining(s.stream) == 0 && r.Ok? ==>
      && Window(r.value) == FakeEoi
      && r.value.stream == s.stream
      && r.value.warnings == s.warnings + 1
  {
    var (chunk, st) := Read(s.stream, Capacity);
    var moved := chunk + s.buffer[|chunk|..];
    if |chunk| == 0 then
      if s.startOfFile then Err(InputEmpty)
      else Ok(Source(FakeEoi + moved[2..], 0, 2, false, s.warnings + 1, st))
    else
      Ok(Source(moved, 0, |chunk|, false, s.warnings, st))
  }

  /**
   What `skip_input_data(n)` leaves when it reads past the end of the file:
   after the `m` bytes beyond the real data, fake EOI markers of two bytes
   each were skipped, one warning per marker, and the last marker is partly
   or wholly consumed.
   */
  predicate Overshot(s: Source, n: int, t: Source)
    requires Valid(s) && Valid(t)
  {
    var m := n - |Pending(s)|;
    && Remaining(t.stream) == 0
    && t.buffer[..2] == FakeEoi
    && t.cursor == 2 - m % 2
    && t.available == m % 2
    && t.warnings == s.warnings + (m + 1) / 2
    && !t.startOfFile
  }

  /**
   `skip_input_data(n)`: discards the next `n` pending bytes, calling `Fill`
   whenever the window runs out. Written as the source's loop: subtract the
   window from `n`, refill, repeat until the rest fits.
   */
  function Skip(s: Source, n: int): (r: Result<Source, JpegError>)
    requires Valid(s)
    ensures n <= 0 ==> r == Ok(s)
    ensures 0 < n <= s.available ==>
      r == Ok(s.(cursor := s.cursor + n, available := s.available - n))
    ensures r.Err? <==> n > s.available && s.startOfFile && Remaining(s.stream) == 0
    ensures r.Err? ==> r.error == InputEmpty
    ensures r.Ok? ==> Valid(r.value) && r.value.stream.data == s.stream.data
    decreases (if n <= 0 then 0 else n) + (if s.available == 0 then 1 else 0)
  {
    if n <= 0 then Ok(s)
    else if n <= s.available then
      Ok(s.(cursor := s.cursor + n, available := s.available - n))
    else
      match Fill(s)
      case Err(e) => Err(e)
      case Ok(t) =>
        RefillPending(s, t);
        Skip(t, n - s.available)
  }

  /**
   A refill of an exhausted or partly read window: with data left in the file
   it continues the pending bytes after the window; at the end of the file
   the pending bytes become the fake EOI marker.
   */
  lemma RefillPending(s: Source, t: Source)
    requires Valid(s) && Fill(s) == Ok(t)
    ensures Remaining(s.stream) > 0 ==> Pending(t) == Pending(s)[s.available..]
    ensures Remaining(s.stream) == 0 ==> Pending(t) == FakeEoi && |Pending(s)| == s.available
    ensures t.cursor == 0 && t.available >= 1
  {
    assert |Window(s)| == s.available;
    if Remaining(s.stream) > 0 {
      assert Pending(s)[s.available..] == Rest(s.stream);
    } else {
      assert Rest(t.stream) == [];
    }
  }
}
