/**
 The borrowed, rewindable input file the adapter reads from: its whole contents
 and the current file position. Only `seek(0)` and `read(n)` are used on it.
 */
module ByteStream {

  /** An unsigned byte, libjpeg's JOCTET. */
  type Byte = bv8

  datatype RawStream = RawStream(data: seq<Byte>, pos: nat)

  /** A file whose position lies within its contents. */
  type Stream = s: RawStream | s.pos <= |s.data| witness RawStream([], 0)

  function Min(a: int, b: int): int
  {
    if a <= b then a else b
  }

  /** The bytes a sequence of reads would still deliver. */
  function Rest(st: Stream): seq<Byte>
  {
    st.data[st.pos..]
  }

  /** How many bytes are still unread. */
  function Remaining(st: Stream): nat
  {
    |st.data| - st.pos
  }

  /** `file.seek(0)`: the whole contents become readable again. */
  function Rewind(st: Stream): (r: Stream)
    ensures r.data == st.data
    ensures Rest(r) == st.data
  {
    RawStream(st.data, 0)
  }

  /**
   `file.read(n)` on a blocking binary file: at most `n` bytes, fewer only
   when the end of the file is reached. The chunk read followed by what is
   still unread is exactly what was unread before.
   */
  function Read(st: Stream, n: nat): (r: (seq<Byte>, Stream))
    ensures r.1.data == st.data && r.1.pos == st.pos + |r.0|
    ensures |r.0| == Min(n, Remaining(st))
    ensures r.0 + Rest(r.1) == Rest(st)
  {
    var k := Min(n, Remaining(st));
    assert st.data[st.pos..st.pos + k] + st.data[st.pos + k..] == st.data[st.pos..];
    (st.data[st.pos..st.pos + k], RawStream(st.data, st.pos + k))
  }
}
