# PyJpegSource: a verified model of ctjpeg's byte-source adapter

ctjpeg drives libjpeg-turbo's decompressor from Python through ctypes. Its
only hand-written logic is `PyJpegSource` (ctj/py_jpeg_source.py), a pull-based
byte source. libjpeg calls it back to get compressed bytes.
It owns a buffer of `buf_size` = 4096 bytes and reads a borrowed, rewindable
Python file. libjpeg reads the buffer through `next_input_byte` and
`bytes_in_buffer`, and calls five callbacks:

- `init_source` rewinds the file;
- `fill_input_buffer` reloads the buffer. On an empty file it is meant to
  report `JERR_INPUT_EMPTY` (ctj/py_jpeg_source.py:79-83); as written it
  raises `AttributeError` instead (see Findings). At a later end of file it warns and inserts a fake EOI
  marker `0xFF 0xD9` (`JPEG_EOI` = 0xD9, ctj/jpeglib.py:978; the End-of-Image
  marker of Table B.1 of ITU-T T.81);
- `skip_input_data` discards bytes, refilling as often as needed;
- `resync_to_restart` is libjpeg's own default;
- `term_source` does nothing.

The Dafny project has these parts:

- `byte_stream.dfy` (`ByteStream`): the file as its contents plus a position,
  with `seek(0)` and `read(n)`.
- `jpeg_source.dfy` (`JpegSource`): the adapter state as a value `Source`. The
  buffer is a sequence that always holds `Capacity` bytes. The window is the
  integer pair `cursor`/`available`, which replaces the address arithmetic of
  the source. The model also keeps a `startOfFile` flag and a warning counter.
  The callbacks are the functions `Init`, `Fill` and `Skip`. `error_exit`
  becomes the `Err` outcome, and `emit_message(..., -1)` adds one to `warnings`.
  `Pending` is everything the decoder has yet to see: the window followed by
  the unread file.
- `source_properties.dfy` (`JpegSourceProperties`): lemmas that relate several
  calls.
- `source_object.dfy` (`JpegSourceObject`): `PyJpegSource` as a class with a
  fixed-length `array<bv8>` buffer. The buffer is overwritten in place, and
  `skip_input_data` is the source's `while` loop. Each method is proved equal
  to the matching `JpegSource` function.
- `start_of_file_as_written.dfy` (`StartOfFileAsWritten`): the `start_of_file`
  attribute as the code actually keeps it (see Findings).
- `results.dfy` (`Results`): the `Ok`/`Err` outcome type.

Two behaviours of the code worth knowing:

- `init_source` only calls `file.seek(0)` (ctj/py_jpeg_source.py:38). It does
  not reset `next_input_byte` or `bytes_in_buffer`, so `Init` keeps the
  window as it was.
- `fill_input_buffer` calls `file.read(4096)` (ctj/py_jpeg_source.py:75).
  `Fill` reads exactly `Min(4096, remaining)` bytes, which is what `read(n)`
  returns for a blocking binary file.

The `startOfFile` flag is an initialisation that the source omits.
`jpeg_source_mgr` has no such field (ctj/jpeglib.py:890-904), and
`init_source` never sets it. The corrected model sets it in `Init` (and in
`New`) and clears it after every successful fill (ctj/py_jpeg_source.py:93).

## Model

| member | source | states |
|---|---|---|
| ByteStream.Read | ctj/py_jpeg_source.py:75-76 | `file.read(n)` returns `Min(n, remaining)` bytes. The chunk followed by what is still unread equals what was unread before, so nothing is lost or repeated. |
| ByteStream.Rewind | ctj/py_jpeg_source.py:38 | `seek(0)` keeps the contents and makes all of them unread again. |
| JpegSource.New | ctj/py_jpeg_source.py:13-16 | The new adapter owns a buffer of exactly 4096 bytes and has an empty window. It holds the given file, its pending bytes are the unread file, the start-of-file flag is set, and no warnings have been emitted. |
| JpegSource.Init | ctj/py_jpeg_source.py:32-38 | `init_source` rewinds the file, so everything is unread from byte 0. It sets the start-of-file flag and leaves the window and the warning count unchanged. |
| JpegSource.Fill | ctj/py_jpeg_source.py:73-94 | A fill is fatal with `InputEmpty` exactly when the file is exhausted at start of file. Otherwise the window starts at 0, holds at least 1 byte, stays inside the 4096-byte buffer, and the flag is cleared. If data remains, the window is the next `Min(4096, remaining)` file bytes and the file advances past them. At end of file the window is exactly `0xFF 0xD9`, the file does not move, and there is one more warning. Buffer bytes past the window are untouched. |
| JpegSource.Skip | ctj/py_jpeg_source.py:108-124 | `n <= 0` changes nothing. `0 < n <= available` only moves the cursor forward by `n` and reduces `available` by `n`, with no fill. Skip fails exactly when a refill is needed at start of file and the file is empty. Every non-fatal result keeps the window inside the buffer. |
| JpegSource.RefillPending | ctj/py_jpeg_source.py:75-92 | A refill continues the pending bytes right after the old window while the file has data. At end of file the pending bytes become the fake EOI marker. The new window starts at 0 and is non-empty. |
| JpegSourceProperties.SkipDiscardsPending | ctj/py_jpeg_source.py:108-124 | While real data lasts (`0 < n <= |Pending|`), skipping succeeds and removes exactly the first `n` pending bytes: unread window bytes first, then bytes of every refill. No warning is emitted. |
| JpegSourceProperties.SkipPastEnd | ctj/py_jpeg_source.py:84-89 | When skipping `m` bytes past the real data after data has been seen, the skip succeeds and ends inside a fake EOI marker. The file is exhausted, the buffer starts with `0xFF 0xD9`, cursor is `2 - m % 2`, available is `m % 2`, and there are `(m + 1) / 2` more warnings, one per fake marker. |
| JpegSourceProperties.ExhaustedFillsRepeatEoi | ctj/py_jpeg_source.py:84-94 | Once the file is exhausted after data was read, every one of `k` further fills succeeds and shows the same two bytes `0xFF 0xD9`. The warnings grow by exactly `k`. |
| JpegSourceProperties.FillsSucceed | ctj/py_jpeg_source.py:79-94 | Once data has been seen (or while the file still has data), any number of successive fills succeed. The buffer keeps its capacity and the file contents are untouched. |
| JpegSourceProperties.RealFillsReadStream | ctj/py_jpeg_source.py:75-78 | Nothing is lost or repeated: the bytes shown by `k` successive non-synthetic fills, followed by what is still unread, equal what was unread before. |
| JpegSourceProperties.FillsExhaustStream | ctj/py_jpeg_source.py:75-92 | Every real fill reads a full 4096-byte buffer or the whole rest of the file, so `k` fills exhaust a file with at most `4096 * k` unread bytes, and none of them fails. |
| JpegSourceProperties.FillsDeliverRest | ctj/py_jpeg_source.py:75-92 | Once data has been seen, `k` fills show exactly the unread rest of the file, in order, when at most `4096 * k` bytes are unread. |
| JpegSourceProperties.StreamRoundTrip | ctj/py_jpeg_source.py:38 | Round trip: from the state `init_source` leaves, `k` fills deliver the whole file from its first byte, exactly once and in order, for any `k` of at least one fill per started 4096-byte block (`(length + 4095) / 4096`). What fills after the end show is stated by `ExhaustedFillsRepeatEoi`. |
| JpegSourceProperties.FillsFromStart | ctj/py_jpeg_source.py:79-92 | From a rewound state at start of file, one fill per started 4096-byte block delivers the whole file. An empty file delivers nothing, because its first fill is fatal. |
| JpegSourceProperties.FatalFillShowsNothing | ctj/py_jpeg_source.py:79-83 | A fill that ends in `error_exit` shows no bytes to the decoder. This is the empty-file case of `FillsFromStart`, not a property of its own. |
| JpegSourceProperties.InitThenFill | ctj/py_jpeg_source.py:32-38 | After `init_source`, the first fill fails with `InputEmpty` if and only if the file is empty. Otherwise it shows the file's first `Min(4096, length)` bytes and leaves the position just after them. |
| JpegSourceObject.PyJpegSource.Create | ctj/py_jpeg_source.py:13-16 | `__init__` gives the object a fresh, zeroed 4096-byte buffer and an empty window. Its state is `New` of the file. |
| JpegSourceObject.PyJpegSource.MoveToFront | ctj/py_jpeg_source.py:77-78 | The `memmove` overwrites the first `|chunk|` buffer bytes with the chunk and leaves every later byte as it was. |
| JpegSourceObject.PyJpegSource.FillInputBuffer | ctj/py_jpeg_source.py:75-94 | The in-place fill (copy loop, then the fake marker) returns `True` and leaves the object equal to `Fill` of its old state. On the fatal path the state is unchanged. |
| JpegSourceObject.PyJpegSource.SkipInputData | ctj/py_jpeg_source.py:108-124 | The source's refill loop terminates, because every refill yields at least one byte. It leaves the object equal to `Skip` of its old state, or reports the same fatal error with the state unchanged (only the first refill can fail). |
| JpegSourceObject.PyJpegSource.InitSource | ctj/py_jpeg_source.py:32-38 | The method's effect is `Init` of the old state. |
| JpegSourceObject.PyJpegSource.TermSource | ctj/py_jpeg_source.py:126-135 | `term_source` changes nothing; the file belongs to the caller. |
| StartOfFileAsWritten.NewAsWritten | ctj/py_jpeg_source.py:13-16 | As written, `__init__` creates `jpeg_source_mgr` without a `start_of_file` attribute. The state shadows the corrected `New` of the same file. |
| StartOfFileAsWritten.InitAsWritten | ctj/py_jpeg_source.py:32-38 | As written, `init_source` rewinds the file to position 0 and leaves the attribute as it was: missing, or a stale `False` from an earlier fill. |
| StartOfFileAsWritten.FillAsWritten | ctj/py_jpeg_source.py:79-93 | As written, an empty read with the attribute never assigned raises `AttributeError`. Once the attribute exists, the fill is `Fill` with that flag, and every successful fill sets the attribute to `False`. |
| StartOfFileAsWritten.EmptyFileMissesInputEmpty | ctj/py_jpeg_source.py:79-83 | On an empty file, the code as written raises `AttributeError` at the first fill after `init_source`. The corrected model reports `InputEmpty`. |
| StartOfFileAsWritten.FillAsWrittenTracks | ctj/py_jpeg_source.py:79-93 | The as-written fill is compared with the corrected `Fill` of the shadowed state. They differ only on an empty read with the attribute missing: `AttributeError` against `InputEmpty`. Otherwise both fail with the same error, or both succeed with the same state and keep shadowing each other. |
| StartOfFileAsWritten.InitAsWrittenTracks | ctj/py_jpeg_source.py:32-38 | On a non-empty file, `init_source` as written keeps shadowing the corrected `Init`, because the next read finds data. On an empty file, a stale `False` attribute makes the as-written fill insert a fake EOI marker where the corrected one reports `InputEmpty`. No run of the model reaches that state, since `False` is written only after a fill that read data and the file's contents never change; in Python it needs a caller that empties the borrowed file between two decodes. |

## Left out

- `__init__`'s native setup (ctj/py_jpeg_source.py:9-14, 18-22) and `__exit__` (:27-30): they create and destroy libjpeg's decompressor and install the callbacks. This is foreign code.
- `resync_to_restart` (:21): it is libjpeg's own `jpeg_resync_to_restart`, which is not part of this model.
- The internals of `error_exit` and `emit_message`: `error_exit` is the `Err` outcome, and `emit_message(..., -1)` is one more warning. The `msg_code` assignments (:81, :84) are not kept as state. The numeric values of `JERR_INPUT_EMPTY` and `JWRN_JPEG_EOF` come from libjpeg's jerror.h, which is not part of this model.
- The model assumes that `error_exit` never returns. Its implementation, `MyErrorManager`, is not part of this model. Under that assumption the `return False` at :83 is never reached, and the adapter never suspends.
- The model assumes Python runs with assertions enabled. The refill at :113 is the expression of an `assert` statement. Under `python -O` the whole statement, including the `fill_input_buffer` call, is removed. The loop at :111-113 then never refills: it runs forever when `bytes_in_buffer` is 0, and otherwise keeps subtracting `bytes_in_buffer` from `num_bytes`. That mode is not modelled.
- How a Python exception travels through a ctypes callback into C is not modelled.
- Short reads: `read(n)` is assumed to return fewer than `n` bytes only at end of file, as a blocking binary file does.
- `ctypes.memmove` and the pointer casts (:77-78, :119-123) become sequence and array updates and the integer `cursor`. The TODO at :116 does not apply to the model, because `cursor` always holds the true offset.
- The decoder's own consumption of the window (advancing `next_input_byte`) is not an operation here. Properties are stated over `Window` and `Pending` instead.
- JpegSource.Skip: `num_bytes` is an unbounded integer; the range of C `long` is not modelled.
- The names the file uses without importing them (`jpeg_decompress_struct`, `byref`, `MyErrorManager`, the `pfn_*` types, the error codes) are assumed to be in scope.
- ctj/jpeglib.py (generated struct and enum mirror; only `JPEG_EOI` is used, as the constant `JpegEoi`), ctj/resources.py (resource-file lookup) and scripts/generate_ctjpeg.py (code generation) hold no adapter logic.

## Findings

| source | as written | input that shows it | evidently intended | confidence | as-written member | corrected member |
|---|---|---|---|---|---|---|
| ctj/py_jpeg_source.py:80 | `src.start_of_file` is read, but it is not a field of `jpeg_source_mgr` (ctj/jpeglib.py:890-904). Only line 93 assigns it, after a successful fill, and `init_source` never sets it. | An empty file: the first fill reads 0 bytes and reads the missing attribute, which raises `AttributeError`. | `init_source` sets the flag, so an empty file is reported through `error_exit` with `JERR_INPUT_EMPTY`. | not executed; medium (assumes a ctypes structure raises `AttributeError` when a missing attribute is read) | StartOfFileAsWritten.EmptyFileMissesInputEmpty | JpegSourceProperties.InitThenFill |
