/**
 Properties that relate several calls of the adapter: what `Skip` discards,
 what successive fills deliver, and the steady state at the end of the file.
 */
module JpegSourceProperties {
  import opened ByteStream
  import opened Results
  import opened JpegSource

  /**
   While real data lasts, skipping `n` bytes discards exactly the next `n`
   pending bytes, unread window first, then the file, however many refills
   that takes, and emits no warning.
   */
  lemma {:induction false} SkipDiscardsPending(s: Source, n: int)
    requires Valid(s) && 0 < n <= |Pending(s)|
    ensures Skip(s, n).Ok?
    ensures Pending(Skip(s, n).value) == Pending(s)[n..]
    ensures Skip(s, n).value.warnings == s.warnings
    decreases n + (if s.available == 0 then 1 else 0)
  {
    if n <= s.available {
      var r := Skip(s, n).value;
      assert Window(r) == Window(s)[n..];
      assert Pending(r) == Window(s)[n..] + Rest(s.stream) == Pending(s)[n..];
    } else {
      assert |Pending(s)| == s.available + Remaining(s.stream);
      var t := Fill(s).value;
      var n' := n - s.available;
      assert Skip(s, n) == Skip(t, n');
      RefillPending(s, t);
      SkipDiscardsPending(t, n');
      assert Pending(t)[n'..] == Pending(s)[n..];
    }
  }

  /**
   Skipping beyond the end of the file never fails once data has been seen:
   each refill past the end yields a fake EOI marker of two bytes and one
   warning, and the skip ends inside the last marker.
   */
  lemma {:induction false} SkipPastEnd(s: Source, n: int)
    requires Valid(s) && n > |Pending(s)|
    requires !s.startOfFile || Remaining(s.stream) > 0
    ensures Skip(s, n).Ok?
    ensures Overshot(s, n, Skip(s, n).value)
    decreases n + (if s.available == 0 then 1 else 0)
  {
    var t := Fill(s).value;
    RefillPending(s, t);
    var n' := n - s.available;
    assert Skip(s, n) == Skip(t, n');
    if Remaining(s.stream) > 0 {
      SkipPastEnd(t, n');
      OvershotCarries(s, t, n, Skip(t, n').value, 0);
    } else if n' > 2 {
      SkipPastEnd(t, n');
      OvershotCarries(s, t, n, Skip(t, n').value, 1);
    } else {
      var r := Skip(t, n').value;
      assert r.buffer == t.buffer && r.cursor == n' && r.available == 2 - n';
      assert t.buffer[..2] == Window(t);
    }
  }

  /**
   One refill step of an overshooting skip: the overshoot measured from `t`
   after the refill is the overshoot from `s` less the `extra` fake bytes
   the refill added beyond the real data.
   */
  lemma OvershotCarries(s: Source, t: Source, n: int, r: Source, fakes: nat)
    requires Valid(s) && Valid(t) && Valid(r)
    requires fakes <= 1
    requires |Pending(t)| == |Pending(s)| - s.available + 2 * fakes
    requires t.warnings == s.warnings + fakes
    requires Overshot(t, n - s.available, r)
    ensures Overshot(s, n, r)
  {
    var m := n - |Pending(s)|;
    var mt := n - s.available - |Pending(t)|;
    assert mt == m - 2 * fakes;
    assert mt % 2 == m % 2;
    assert (mt + 1) / 2 + fakes == (m + 1) / 2;
  }

  /** `k` successive calls of `fill_input_buffer`, stopping at a fatal error. */
  function FillTimes(s: Source, k: nat): Result<Source, JpegError>
    requires Valid(s)
    decreases k
  {
    if k == 0 then Ok(s)
    else
      match Fill(s)
      case Err(e) => Err(e)
      case Ok(t) => FillTimes(t, k - 1)
  }

  /**
   Once the file is exhausted after data was read, every further fill
   succeeds, exposes the same two bytes 0xFF 0xD9, and adds one warning.
   */
  lemma {:induction false} ExhaustedFillsRepeatEoi(s: Source, k: nat)
    requires Valid(s) && !s.startOfFile && Remaining(s.stream) == 0 && k >= 1
    ensures FillTimes(s, k).Ok?
    ensures Valid(FillTimes(s, k).value) && Window(FillTimes(s, k).value) == FakeEoi
    ensures FillTimes(s, k).value.warnings == s.warnings + k
    ensures FillTimes(s, k).value.stream == s.stream
    decreases k
  {
    var t := Fill(s).value;
    if k > 1 {
      ExhaustedFillsRepeatEoi(t, k - 1);
    }
  }

  /**
   The file bytes the decoder is shown by `k` successive fills: the window
   of every fill that read real data, in order; fake EOI markers are left
   out.
   */
  function RealFills(s: Source, k: nat): seq<Byte>
    requires Valid(s)
    decreases k
  {
    if k == 0 then []
    else
      match Fill(s)
      case Err(_) => []
      case Ok(t) => (if Remaining(s.stream) > 0 then Window(t) else []) + RealFills(t, k - 1)
  }

  /** Once data has been seen, no number of further fills can fail. */
  lemma {:induction false} FillsSucceed(s: Source, k: nat)
    requires Valid(s) && (!s.startOfFile || Remaining(s.stream) > 0)
    ensures FillTimes(s, k).Ok? && Valid(FillTimes(s, k).value)
    ensures FillTimes(s, k).value.stream.data == s.stream.data
    decreases k
  {
    if k > 0 {
      var t := Fill(s).value;
      FillsSucceed(t, k - 1);
    }
  }

  /**
   Successive fills deliver the unread file in order, with nothing lost or
   repeated: the bytes that `k` fills show, followed by what is still unread,
   are exactly what was unread before.
   */
  lemma {:induction false} RealFillsReadStream(s: Source, k: nat)
    requires Valid(s) && (!s.startOfFile || Remaining(s.stream) > 0)
    ensures FillTimes(s, k).Ok?
    ensures RealFills(s, k) + Rest(FillTimes(s, k).value.stream) == Rest(s.stream)
    decreases k
  {
    FillsSucceed(s, k);
    if k > 0 {
      var t := Fill(s).value;
      RealFillsReadStream(t, k - 1);
      var rest := Rest(FillTimes(t, k - 1).value.stream);
      var shown := if Remaining(s.stream) > 0 then Window(t) else [];
      assert shown + Rest(t.stream) == Rest(s.stream) by {
        RefillPending(s, t);
      }
      calc {
        RealFills(s, k) + Rest(FillTimes(s, k).value.stream);
        shown + RealFills(t, k - 1) + rest;
        shown + (RealFills(t, k - 1) + rest);
        shown + Rest(t.stream);
      }
    }
  }

  /**
   Every real fill reads a full buffer of 4096 bytes or the whole rest of the
   file, so `k` fills exhaust a file with at most `4096 * k` unread bytes.
   */
  lemma {:induction false} FillsExhaustStream(s: Source, k: nat)
    requires Valid(s) && (!s.startOfFile || Remaining(s.stream) > 0)
    requires Remaining(s.stream) <= 4096 * k
    ensures FillTimes(s, k).Ok?
    ensures Remaining(FillTimes(s, k).value.stream) == 0
    decreases k
  {
    FillsSucceed(s, k);
    if k > 0 {
      var t := Fill(s).value;
      if Remaining(s.stream) > 0 {
        assert |Window(t)| + Remaining(t.stream) == Remaining(s.stream);
      }
      FillsExhaustStream(t, k - 1);
      assert FillTimes(s, k) == FillTimes(t, k - 1);
    }
  }

  /**
   Once data has been seen, `k` fills deliver everything still unread when
   the file has at most `4096 * k` unread bytes.
   */
  lemma FillsDeliverRest(s: Source, k: nat)
    requires Valid(s) && (!s.startOfFile || |Rest(s.stream)| > 0)
    requires |Rest(s.stream)| <= 4096 * k
    ensures RealFills(s, k) == Rest(s.stream)
  {
    RealFillsReadStream(s, k);
    FillsExhaustStream(s, k);
    var last := FillTimes(s, k).value.stream;
    assert Rest(last) == [];
    assert RealFills(s, k) + Rest(last) == RealFills(s, k);
  }

  /**
   Round trip: from the state `i` that `init_source` leaves, one fill per
   started block of 4096 bytes delivers the whole file from its first byte,
   exactly once and in order; an empty file delivers nothing.
   */
  lemma StreamRoundTrip(s: Source, i: Source, k: nat)
    requires Valid(s) && i == Init(s) && (|s.stream.data| + 4095) / 4096 <= k
    ensures RealFills(i, k) == s.stream.data
  {
    FillsFromStart(i, s.stream.data, k);
  }

  /** `k` fills from the start of a file of at most `k` blocks of 4096 bytes deliver all of it. */
  lemma FillsFromStart(i: Source, data: seq<Byte>, k: nat)
    requires Valid(i) && i.startOfFile && Rest(i.stream) == data && (|data| + 4095) / 4096 <= k
    ensures RealFills(i, k) == data
  {
    if |data| > 0 {
      assert |data| <= 4096 * k;
      FillsDeliverRest(i, k);
    } else if k > 0 {
      FatalFillShowsNothing(i, k);
    }
  }

  /** A fill that ends in `error_exit` shows no bytes. */
  lemma FatalFillShowsNothing(s: Source, k: nat)
    requires Valid(s) && s.startOfFile && Remaining(s.stream) == 0 && k > 0
    ensures RealFills(s, k) == []
  {
  }

  /**
   `init_source` makes the next fill read from the start of the file: an
   empty file is the fatal empty-input error, otherwise the window is the
   first `Min(Capacity, |data|)` bytes of the file.
   */
  lemma InitThenFill(s: Source, i: Source)
    requires Valid(s) && i == Init(s)
    ensures |s.stream.data| == 0 <==> Fill(i) == Err(InputEmpty)
    ensures |s.stream.data| > 0 ==>
      && Fill(i).Ok?
      && Window(Fill(i).value) == s.stream.data[..Min(Capacity, |s.stream.data|)]
      && Fill(i).value.stream.pos == Min(Capacity, |s.stream.data|)
  {
    var data := s.stream.data;
    assert Rest(i.stream) == data && Remaining(i.stream) == |data|;
    if |data| > 0 {
      var t := Fill(i).value;
      var w := Min(Capacity, |data|);
      assert |Window(t)| == t.available == w;
      assert Window(t) + Rest(t.stream) == data;
      assert Window(t) == data[..w];
      assert |Rest(t.stream)| == |data| - t.stream.pos == |data| - w;
    } else {
      assert Fill(i).Err? && Fill(i).error == InputEmpty;
    }
  }
}
