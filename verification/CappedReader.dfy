/** The size cap on a provider's response: reads are passed through until the cap is used up, and
    from then on one more byte is asked for to tell a stream that fits from one that does not. */
module CappedReader {
  import opened Wrappers

  datatype ReadError = EndOfStream | Broken | TooLarge

  /** How a source may end by itself. */
  type End = e: ReadError | e != TooLarge witness EndOfStream

  datatype ReadResult = ReadResult(bytes: seq<bv8>, error: Option<ReadError>)

  function Min(a: int, b: int): int {
    if a < b then a else b
  }

  /** A stream as it comes off the network: in pieces of any size, empty ones too, with its end
      reported along with the last bytes or after them. `pieces` are the sizes to come. */
  class Source {
    var rest: seq<bv8>
    var pieces: seq<nat>
    const end: End
    const early: bool

    constructor (stream: seq<bv8>, pieces: seq<nat>, end: End, early: bool)
      ensures rest == stream && this.pieces == pieces && this.end == end && this.early == early
    {
      rest, this.pieces, this.end, this.early := stream, pieces, end, early;
    }

    method Read(size: nat) returns (r: ReadResult)
      modifies this
      ensures |r.bytes| <= size && old(rest) == r.bytes + rest
      ensures r.error.Some? ==> r.error == Some(end) && rest == []
      ensures r.error.None? && size > 0 ==> r.bytes != [] || |pieces| < |old(pieces)|
      ensures |pieces| <= |old(pieces)|
    {
      var n := Min(size, |rest|);
      if pieces != [] {
        n := Min(n, pieces[0]);
        pieces := pieces[1..];
        if rest == [] {
          return ReadResult([], Some(end));
        }
      }
      var bytes := rest[..n];
      var left := |rest|;
      rest := rest[n..];
      r := ReadResult(bytes, if rest == [] && (early || left == 0) then Some(end) else None);
    }
  }

  class Capped {
    const reader: Source
    var remaining: int

    constructor (reader: Source, limit: int)
      ensures this.reader == reader && remaining == limit
    {
      this.reader, remaining := reader, limit;
    }

    method Read(size: nat) returns (r: ReadResult)
      modifies this, reader
      ensures |r.bytes| <= size && r.bytes <= old(reader.rest)
      ensures old(remaining) > 0 ==>
        old(reader.rest) == r.bytes + reader.rest && remaining == old(remaining) - |r.bytes| >= 0
      ensures old(remaining) > 0 && r.error.Some? ==> r.error == Some(reader.end) && reader.rest == []
      ensures old(remaining) <= 0 ==> r.bytes == [] && remaining == old(remaining)
      ensures old(remaining) <= 0 && r.error == Some(TooLarge) ==> old(reader.rest) != []
      ensures old(remaining) <= 0 && r.error.Some? && r.error != Some(TooLarge) ==>
        r.error == Some(reader.end) && old(reader.rest) == []
      ensures r.error.None? && old(remaining) <= 0 ==> reader.rest == old(reader.rest)
      ensures r.error.None? && size > 0 ==> r.bytes != [] || |reader.pieces| < old(|reader.pieces|)
      ensures |reader.pieces| <= old(|reader.pieces|)
    {
      if remaining > 0 {
        var room := if size > remaining then remaining else size;
        r := reader.Read(room);
        remaining := remaining - |r.bytes|;
        return;
      }
      var probe := reader.Read(1);
      if |probe.bytes| > 0 {
        return ReadResult([], Some(TooLarge));
      }
      return ReadResult([], probe.error);
    }

    /** A consumer's reads up to the first error. The end of the stream is reported only with all
        of it delivered; a stream longer than the cap always ends in the too-large error, whatever
        the pieces it comes in. */
    method ReadToEnd(size: nat) returns (bytes: seq<bv8>, error: ReadError)
      requires size > 0
      modifies this, reader
      ensures var stream := old(reader.rest);
        if |stream| <= old(remaining) || stream == [] then bytes == stream && error == reader.end
        else bytes == stream[..if old(remaining) > 0 then old(remaining) else 0] && error == TooLarge
    {
      ghost var stream, cap := reader.rest, remaining;
      bytes := [];
      while true
        invariant stream == bytes + reader.rest
        invariant if cap > 0 then remaining == cap - |bytes| >= 0 else remaining == cap && bytes == []
        decreases |reader.rest| + |reader.pieces|
      {
        var r := Read(size);
        bytes := bytes + r.bytes;
        if r.error.Some? {
          return bytes, r.error.value;
        }
      }
    }
  }
}
