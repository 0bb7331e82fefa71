/** The two ways bytes move: readFrom copies an encoding out piece by piece, a Reader gives them in. */
module Streams {
  import opened Bytes

  /**
   readFrom: copies what fits of data, from *offset on, into p and advances the offset; io.EOF once
   everything has been read.
   */
  method ReadFrom(p: array<byte>, offset: nat, data: bytes) returns (n: nat, eof: bool, newOffset: nat)
    modifies p
    ensures eof <==> offset >= |data|
    ensures n == if eof then 0 else if p.Length < |data| - offset then p.Length else |data| - offset
    ensures newOffset == offset + n
    ensures !eof ==> p[..n] == data[offset..newOffset]
    ensures p[n..] == old(p[n..])
  {
    if offset >= |data| {
      return 0, true, offset;
    }
    n := if p.Length < |data| - offset then p.Length else |data| - offset;
    forall i | 0 <= i < n {
      p[i] := data[offset + i];
    }
    assert p[..n] == data[offset..offset + n];
    assert p[n..] == old(p[n..]);
    return n, false, offset + n;
  }

  /** io.Copy from such a source: whatever buffers are used, the destination gets the rest of data. */
  method Drain(data: bytes, start: nat) returns (out: bytes)
    requires start <= |data|
    ensures out == data[start..]
  {
    out := [];
    var offset := start;
    while true
      invariant start <= offset <= |data| && out == data[start..offset]
      decreases |data| - offset
    {
      var size: nat :| size > 0;
      var p := new byte[size];
      var n, eof, next := ReadFrom(p, offset, data);
      if eof {
        return;
      }
      assert data[start..offset] + data[offset..next] == data[start..next];
      out := out + p[..n];
      offset := next;
    }
  }

  /** A connection or file opened for reading: the bytes it will still give. */
  class Reader {
    var rest: bytes

    constructor (contents: bytes)
      ensures rest == contents
    {
      rest := contents;
    }

    /** io.ReadFull: all n bytes, or an error after taking what there was. */
    method ReadFull(n: nat) returns (ok: bool, data: bytes)
      modifies this
      ensures ok <==> n <= |old(rest)|
      ensures ok ==> data == old(rest)[..n] && rest == old(rest)[n..]
      ensures !ok ==> data == old(rest) && rest == []
    {
      ok := n <= |rest|;
      if ok {
        data, rest := rest[..n], rest[n..];
      } else {
        data, rest := rest, [];
      }
    }
  }
}
