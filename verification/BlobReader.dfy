/** FirebirdStatement::ReadBlob: reading a BLOB through an 8192-byte buffer. */
module BlobReader {
  import opened Wrappers

  type Byte = x: int | 0 <= x < 256

  const BUFFER_SIZE: nat := 8192

  /** Return codes of isc_get_segment: a segment ended, it was cut off by the buffer, there
      is no more data, or an error. */
  datatype Code = Complete | Truncated | Eof | Failure

  /** The server's end of an open BLOB: the rest of the current segment, if one was cut
      off, and the segments after it. `callsLeft` tells after how many calls the
      connection fails, if it does. */
  class SegmentStream {
    var pending: Option<seq<Byte>>
    var segments: seq<seq<Byte>>
    var callsLeft: Option<nat>

    constructor (segments: seq<seq<Byte>>, callsLeft: Option<nat>)
      ensures pending == None && this.segments == segments && this.callsLeft == callsLeft
    {
      this.pending, this.segments, this.callsLeft := None, segments, callsLeft;
    }

    /** Everything the server has not sent yet. */
    function Rest(): seq<Byte>
      reads this
    {
      (match pending case None => [] case Some(p) => p) + Concat(segments)
    }

    function Left(): nat
      reads this
    {
      |Rest()| + |segments| + if pending.Some? then 1 else 0
    }

    method GetSegment() returns (code: Code, data: seq<Byte>)
      modifies this
      ensures |data| <= BUFFER_SIZE
      ensures old(callsLeft) == Some(0) <==> code == Failure
      ensures old(callsLeft) == None ==> callsLeft == None
      ensures code != Failure ==> old(Rest()) == data + Rest()
      ensures code == Eof ==> data == [] && old(Rest()) == []
      ensures code == Complete || code == Truncated ==> Left() < old(Left())
    {
      data := [];
      if callsLeft.Some? {
        if callsLeft.value == 0 { return Failure, []; }
        callsLeft := Some(callsLeft.value - 1);
      }
      var current := [];
      if pending.Some? {
        current := pending.value;
      } else if segments != [] {
        current, segments := segments[0], segments[1..];
      } else {
        return Eof, [];
      }
      if |current| > BUFFER_SIZE {
        data := current[..BUFFER_SIZE];
        pending := Some(current[BUFFER_SIZE..]);
        assert current == data + pending.value;
        return Truncated, data;
      }
      pending := None;
      return Complete, current;
    }
  }

  class BlobColumn {
    var bytesRead: nat

    constructor ()
      ensures bytesRead == 0
    {
      bytesRead := 0;
    }

    /** Reads until the end-of-blob code and nothing else ends the loop. For every list of
        segments, empty ones and ones larger than the buffer included, the result is their
        concatenation and its length is added to the byte count. */
    method ReadBlob(stream: SegmentStream) returns (r: Option<seq<Byte>>)
      modifies this, stream
      ensures old(stream.callsLeft) == None ==> r == Some(old(stream.Rest()))
      ensures r.Some? ==> r.value == old(stream.Rest()) && bytesRead == old(bytesRead) + |r.value|
      ensures r.None? ==> bytesRead == old(bytesRead)
    {
      var out: seq<Byte> := [];
      ghost var whole := stream.Rest();
      while true
        invariant out + stream.Rest() == whole && bytesRead == old(bytesRead)
        invariant old(stream.callsLeft) == None ==> stream.callsLeft == None
        decreases stream.Left()
      {
        var code, data := stream.GetSegment();
        if code == Eof { break; }
        if code == Failure { return None; }
        assert out + (data + stream.Rest()) == out + data + stream.Rest();
        out := out + data;
      }
      assert out + [] == out;
      bytesRead := bytesRead + |out|;
      r := Some(out);
    }
  }
}
