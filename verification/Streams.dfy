/** A byte stream whose every read returns as little as it likes, and the readers that loop over it. */
module Streams {
  import opened Wrappers
  import opened Bytes

  class Stream {
    /** What the peer has still to deliver before it closes. */
    var rest: seq<byte>
    /** How many bytes the next reads will give at most; each read gives at least one until the end. */
    var sizes: seq<nat>

    constructor (content: seq<byte>, sizes: seq<nat>)
      ensures rest == content && this.sizes == sizes
    {
      rest := content;
      this.sizes := sizes;
    }

    method Read(count: nat) returns (chunk: seq<byte>)
      requires count > 0
      modifies this
      ensures |chunk| <= count && old(rest) == chunk + rest
      ensures chunk == [] <==> old(rest) == []
    {
      var size := if |rest| < count then |rest| else count;
      if sizes != [] {
        size := if sizes[0] < size then (if sizes[0] == 0 && size > 0 then 1 else sizes[0]) else size;
        sizes := sizes[1..];
      }
      chunk := rest[..size];
      rest := rest[size..];
    }

    /** Read exactly `count` bytes, or find the stream too short. */
    method ReadExact(count: nat) returns (result: Option<seq<byte>>)
      modifies this
      ensures |old(rest)| >= count ==> result == Some(old(rest)[..count]) && rest == old(rest)[count..]
      ensures |old(rest)| < count ==> result == None && rest == []
    {
      var joined := [];
      var remaining: int := count;
      while remaining > 0
        invariant 0 <= remaining == count - |joined|
        invariant old(rest) == joined + rest
        decreases remaining
      {
        var chunk := Read(remaining);
        if chunk == [] {
          assert joined + [] == joined;
          return None;
        }
        joined := joined + chunk;
        remaining := remaining - |chunk|;
      }
      assert old(rest)[..count] == joined && old(rest)[count..] == rest;
      return Some(joined);
    }

    /** The bounded reader: it asks for at most one byte more than it may keep. */
    method ReadBounded(limit: nat) returns (result: Option<seq<byte>>)
      modifies this
      ensures result == if |old(rest)| <= limit then Some(old(rest)) else None
      ensures result.Some? ==> rest == []
    {
      var joined := [];
      while true
        invariant |joined| <= limit && old(rest) == joined + rest
        decreases |rest|
      {
        var chunk := Read(if limit + 1 - |joined| < 65536 then limit + 1 - |joined| else 65536);
        if chunk == [] {
          assert joined + [] == joined;
          return Some(joined);
        }
        joined := joined + chunk;
        if |joined| > limit {
          return None;
        }
      }
    }
  }
}
