/**
  The client's `load`: read a class-file resource chunk by chunk into one
  byte array. A resource stream is the script of what successive
  `read(buffer)` calls return; once the script is used up every further read
  reports end of stream.
 */
module ResourceLoad {
  import opened Wrappers
  import opened Wire

  /** One `read(buffer)` outcome: a (possibly empty) chunk, -1, or an IOException. */
  datatype ReadResult = Chunk(bytes: seq<byte>) | EndOfStream | ReadFailure(cause: string)

  /** The bytes of every chunk, in order. */
  function Concat(chunks: seq<seq<byte>>): seq<byte>
  {
    if chunks == [] then [] else chunks[0] + Concat(chunks[1..])
  }

  /** The reads that deliver exactly the given chunks, in order. */
  function Chunks(chunks: seq<seq<byte>>): (r: seq<ReadResult>)
    ensures |r| == |chunks|
    ensures forall i :: 0 <= i < |r| ==> r[i] == Chunk(chunks[i])
  {
    if chunks == [] then [] else [Chunk(chunks[0])] + Chunks(chunks[1..])
  }

  /**
    Reference definition of what reading the whole stream yields: the chunks
    before the first end of stream, or the first read failure met before it.
   */
  function Drain(script: seq<ReadResult>): Result<seq<byte>, string>
  {
    if script == [] then Success([])
    else match script[0]
      case EndOfStream => Success([])
      case ReadFailure(cause) => Failure(cause)
      case Chunk(bytes) =>
        match Drain(script[1..])
        case Success(rest) => Success(bytes + rest)
        case Failure(cause) => Failure(cause)
  }

  /** `out` prepended to a successful drain; failures pass through. */
  function Prefixed(out: seq<byte>, r: Result<seq<byte>, string>): Result<seq<byte>, string>
  {
    match r
    case Success(rest) => Success(out + rest)
    case Failure(cause) => Failure(cause)
  }

  lemma PrefixedEmpty(r: Result<seq<byte>, string>)
    ensures Prefixed([], r) == r
  {
    if r.Success? {
      assert [] + r.value == r.value;
    }
  }

  lemma PrefixedAppend(out: seq<byte>, bytes: seq<byte>, r: Result<seq<byte>, string>)
    ensures Prefixed(out, Prefixed(bytes, r)) == Prefixed(out + bytes, r)
  {
    if r.Success? {
      assert out + (bytes + r.value) == (out + bytes) + r.value;
    }
  }

  /**
    The do-while loop of `load`: read, append when the length is positive,
    repeat while the length is not negative.
   */
  method Load(script: seq<ReadResult>) returns (r: Result<seq<byte>, string>)
    ensures r == Drain(script)
  {
    var out: seq<byte> := [];
    var i := 0;
    var len := 0;
    assert script[i..] == script;
    PrefixedEmpty(Drain(script));
    while len >= 0
      invariant 0 <= i <= |script|
      invariant len >= 0 ==> Drain(script) == Prefixed(out, Drain(script[i..]))
      invariant len < 0 ==> Drain(script) == Success(out)
      decreases |script| - i + (if len >= 0 then 1 else 0)
    {
      if i == |script| {
        assert script[i..] == [];
        assert out + [] == out;
        len := -1;
      } else {
        var next := script[i];
        assert script[i..][0] == next;
        assert script[i..][1..] == script[i + 1..];
        i := i + 1;
        match next
        case ReadFailure(cause) =>
          return Failure(cause);
        case EndOfStream =>
          assert out + [] == out;
          len := -1;
        case Chunk(bytes) =>
          len := |bytes|;
          PrefixedAppend(out, bytes, Drain(script[i..]));
          if len > 0 {
            out := out + bytes;
          } else {
            assert out + bytes == out;
          }
      }
    }
    return Success(out);
  }

  /** A stream of chunks ending cleanly yields their in-order concatenation. */
  lemma {:induction false} DrainConcatenates(chunks: seq<seq<byte>>, tail: seq<ReadResult>)
    requires tail == [] || tail[0] == EndOfStream
    ensures Drain(Chunks(chunks) + tail) == Success(Concat(chunks))
  {
    if chunks == [] {
      assert Chunks(chunks) + tail == tail;
    } else {
      assert (Chunks(chunks) + tail)[0] == Chunk(chunks[0]);
      assert (Chunks(chunks) + tail)[1..] == Chunks(chunks[1..]) + tail;
      DrainConcatenates(chunks[1..], tail);
    }
  }

  /** A zero-length read contributes nothing. */
  lemma {:induction false} DrainIgnoresEmptyChunk(before: seq<ReadResult>, after: seq<ReadResult>)
    ensures Drain(before + [Chunk([])] + after) == Drain(before + after)
  {
    if before == [] {
      assert before + [Chunk([])] + after == [Chunk([])] + after;
      assert ([Chunk([])] + after)[1..] == after;
      assert before + after == after;
      PrefixedEmpty(Drain(after));
    } else {
      assert (before + [Chunk([])] + after)[1..] == before[1..] + [Chunk([])] + after;
      assert (before + after)[1..] == before[1..] + after;
      DrainIgnoresEmptyChunk(before[1..], after);
    }
  }

  /** Nothing after the first end of stream is read. */
  lemma {:induction false} DrainStopsAtEnd(before: seq<ReadResult>, after: seq<ReadResult>)
    ensures Drain(before + [EndOfStream] + after) == Drain(before + [EndOfStream])
  {
    if before == [] {
      assert before + [EndOfStream] + after == [EndOfStream] + after;
      assert before + [EndOfStream] == [EndOfStream];
    } else {
      assert (before + [EndOfStream] + after)[1..] == before[1..] + [EndOfStream] + after;
      assert (before + [EndOfStream])[1..] == before[1..] + [EndOfStream];
      DrainStopsAtEnd(before[1..], after);
    }
  }

  /** A read failure before any end of stream makes the whole load fail with it. */
  lemma {:induction false} DrainFailsOnError(chunks: seq<seq<byte>>, cause: string, after: seq<ReadResult>)
    ensures Drain(Chunks(chunks) + [ReadFailure(cause)] + after) == Failure(cause)
  {
    if chunks == [] {
      assert Chunks(chunks) + [ReadFailure(cause)] + after == [ReadFailure(cause)] + after;
    } else {
      assert (Chunks(chunks) + [ReadFailure(cause)] + after)[0] == Chunk(chunks[0]);
      assert (Chunks(chunks) + [ReadFailure(cause)] + after)[1..]
          == Chunks(chunks[1..]) + [ReadFailure(cause)] + after;
      DrainFailsOnError(chunks[1..], cause, after);
    }
  }
}
