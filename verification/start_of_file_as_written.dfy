/**
 `start_of_file` as the Python code keeps it. It is not a field of
 `jpeg_source_mgr` (ctj/jpeglib.py:890-904), so it is a plain Python attribute
 that only exists once `fill_input_buffer` has assigned it, and
 `init_source` never assigns it. Reading it before that raises
 `AttributeError`. `JpegSource` is the corrected model: `Init` sets the flag.
 */
module StartOfFileAsWritten {
  import opened ByteStream
  import opened Results
  import opened JpegSource

  /** A Python attribute that may not exist yet. */
  datatype Attribute = Missing | Present(flag: bool)

  datatype PyError = AttributeError | ErrorExit(code: JpegError)

  /** The adapter state with the attribute as the code keeps it; `src.startOfFile` is unused. */
  datatype RawSource = RawSource(src: Source, startOfFile: Attribute)

  /** `__init__` as written: the attribute does not exist. */
  function NewAsWritten(file: Stream): (r: RawSource)
    ensures Valid(r.src) && r.startOfFile == Missing && Rest(r.src.stream) == Rest(file)
    ensures Tracks(r, New(file))
  {
    RawSource(New(file), Missing)
  }

  /** `init_source` as written: only `seek(0)`; the attribute is untouched. */
  function InitAsWritten(s: RawSource): (r: RawSource)
    requires Valid(s.src)
    ensures r.startOfFile == s.startOfFile && Valid(r.src)
    ensures r.src.stream.pos == 0 && r.src.stream.data == s.src.stream.data
  {
    RawSource(s.src.(stream := Rewind(s.src.stream)), s.startOfFile)
  }

  /**
   `fill_input_buffer` as written: the attribute is read only when the
   read came back empty, and written after every successful fill.
   */
  function FillAsWritten(s: RawSource): (r: Result<RawSource, PyError>)
    requires Valid(s.src)
    ensures Remaining(s.src.stream) == 0 && s.startOfFile == Missing ==> r == Err(AttributeError)
    ensures s.startOfFile.Present? ==>
      match Fill(s.src.(startOfFile := s.startOfFile.flag))
      case Ok(t) => r == Ok(RawSource(t, Present(false)))
      case Err(e) => r == Err(ErrorExit(e))
    ensures Remaining(s.src.stream) > 0 ==>
      r.Ok? && r.value.startOfFile == Present(false) && Fill(s.src) == Ok(r.value.src)
  {
    if Remaining(s.src.stream) == 0 && s.startOfFile == Missing then Err(AttributeError)
    else
      var flag := if s.startOfFile.Present? then s.startOfFile.flag else false;
      match Fill(s.src.(startOfFile := flag))
      case Ok(t) => Ok(RawSource(t, Present(false)))
      case Err(e) => Err(ErrorExit(e))
  }

  /**
   The input that shows the missing initialisation: on an empty file the
   first fill after `init_source` raises `AttributeError` as written, where
   the corrected model reports libjpeg's empty-input error.
   */
  lemma EmptyFileMissesInputEmpty(file: Stream)
    requires |file.data| == 0
    ensures FillAsWritten(InitAsWritten(NewAsWritten(file))) == Err(AttributeError)
    ensures Fill(Init(New(file))) == Err(InputEmpty)
  {
  }

  /**
   The as-written state `a` shadows the corrected state `c`: the two agree on
   everything except the start-of-file flag, which the code keeps in the
   attribute. The attribute is missing only where the corrected flag is set,
   and it may be a stale `False` where the corrected flag is set only while
   the file still has data to read.
   */
  predicate Tracks(a: RawSource, c: Source)
  {
    && Valid(c)
    && a.src.(startOfFile := c.startOfFile) == c
    && match a.startOfFile
       case Missing => c.startOfFile
       case Present(flag) => flag == c.startOfFile || (c.startOfFile && Remaining(c.stream) > 0)
  }

  /**
   A fill of shadowing states: the only difference is the empty read with the
   attribute missing, where the code raises `AttributeError` and the corrected
   fill reports `InputEmpty`. Otherwise both fail with the same error, or
   both succeed with the same adapter state and keep shadowing each other.
   */
  lemma FillAsWrittenTracks(a: RawSource, c: Source)
    requires Valid(a.src) && Tracks(a, c)
    ensures a.startOfFile == Missing && Remaining(c.stream) == 0 ==>
      FillAsWritten(a) == Err(AttributeError) && Fill(c) == Err(InputEmpty)
    ensures a.startOfFile.Present? || Remaining(c.stream) > 0 ==>
      && (FillAsWritten(a).Ok? <==> Fill(c).Ok?)
      && (Fill(c).Err? ==> FillAsWritten(a) == Err(ErrorExit(Fill(c).error)))
      && (Fill(c).Ok? ==> FillAsWritten(a).value.src == Fill(c).value)
      && (Fill(c).Ok? ==> Tracks(FillAsWritten(a).value, Fill(c).value))
  {
    assert a.src.stream == c.stream;
    if a.startOfFile.Present? || Remaining(c.stream) > 0 {
      var flag := if a.startOfFile.Present? then a.startOfFile.flag else false;
      assert Fill(a.src.(startOfFile := flag)) == Fill(c);
    }
  }

  /**
   `init_source` keeps shadowing on a non-empty file: the stale attribute
   does not matter, because the next read finds data. On an empty file a
   stale `False` makes the code as written insert a fake EOI marker where
   the corrected adapter reports `InputEmpty`. No run of the model reaches
   that state, because `False` is only written after a fill that read data
   and a `Stream` keeps its contents; in Python it needs a caller that
   empties the borrowed file between two decodes.
   */
  lemma InitAsWrittenTracks(a: RawSource, c: Source)
    requires Valid(a.src) && Tracks(a, c)
    ensures |c.stream.data| > 0 ==> Tracks(InitAsWritten(a), Init(c))
    ensures |c.stream.data| == 0 && a.startOfFile == Present(false) ==>
      FillAsWritten(InitAsWritten(a)).Ok? && Fill(Init(c)) == Err(InputEmpty)
  {
    assert a.src.stream == c.stream;
    assert InitAsWritten(a).src.(startOfFile := true) == Init(c);
  }
}
