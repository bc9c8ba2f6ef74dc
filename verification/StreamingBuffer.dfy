/** The read-ahead buffer: a queue of chunks that behaves as a flat byte queue. */
module StreamingBuffers {
  import opened Base

  lemma {:induction false} Taken(front: seq<byte>, rest: seq<byte>, all: seq<byte>)
    requires front + rest == all
    ensures front == all[..|front|] && rest == all[|front|..]
  {
  }

  class StreamingBuffer {
    var chunks: seq<seq<byte>>
    var buffered: nat

    /** No stored chunk is empty, and `buffered` is the number of stored bytes. */
    ghost predicate Valid()
      reads this
    {
      && (forall i :: 0 <= i < |chunks| ==> chunks[i] != [])
      && buffered == |Flatten(chunks)|
    }

    /** The bytes in the order the player will see them. */
    ghost function Bytes(): seq<byte>
      reads this
    {
      Flatten(chunks)
    }

    constructor ()
      ensures Valid() && Bytes() == []
    {
      chunks, buffered := [], 0;
    }

    method Clear()
      modifies this
      ensures Valid() && Bytes() == []
    {
      chunks, buffered := [], 0;
    }

    method Push(chunk: seq<byte>)
      requires Valid()
      modifies this
      ensures Valid() && Bytes() == old(Bytes()) + chunk
    {
      if chunk == [] {
        return;
      }
      FlattenPush(chunks, chunk);
      buffered := buffered + |chunk|;
      chunks := chunks + [chunk];
    }

    /** At most one chunk's worth of bytes, split off the front; nothing exactly
        when nothing is asked for or nothing is stored. */
    method PopBytes(maxLen: nat) returns (out: Option<seq<byte>>)
      requires Valid()
      modifies this
      ensures Valid()
      ensures out.None? <==> maxLen == 0 || old(Bytes()) == []
      ensures out.None? ==> Bytes() == old(Bytes())
      ensures out.Some? ==> 0 < |out.value| <= maxLen && out.value + Bytes() == old(Bytes())
    {
      if maxLen == 0 || chunks == [] {
        return None;
      }
      var chunk := chunks[0];
      chunks := chunks[1..];
      assert old(Bytes()) == chunk + Bytes();
      if |chunk| > maxLen {
        var head, tail := chunk[..maxLen], chunk[maxLen..];
        assert head + (tail + Bytes()) == chunk + Bytes();
        buffered := buffered - |head|;
        chunks := [tail] + chunks;
        assert chunks[1..] == old(chunks)[1..];
        return Some(head);
      }
      buffered := buffered - |chunk|;
      return Some(chunk);
    }

    /** Exactly the first min(maxLen, stored) bytes, however they are chunked. */
    method PopBlock(maxLen: nat) returns (out: Option<seq<byte>>)
      requires Valid()
      modifies this
      ensures Valid()
      ensures out.None? <==> maxLen == 0 || old(Bytes()) == []
      ensures out.None? ==> Bytes() == old(Bytes())
      ensures out.Some? ==>
        var n := Min(maxLen, |old(Bytes())|);
        out.value == old(Bytes())[..n] && Bytes() == old(Bytes())[n..]
    {
      if maxLen == 0 {
        return None;
      }
      ghost var all := Bytes();
      var first := PopBytes(maxLen);
      if first.None? {
        return None;
      }
      var gathered := first.value;
      if |gathered| == maxLen || chunks == [] {
        Taken(gathered, Bytes(), all);
        return Some(gathered);
      }
      while |gathered| < maxLen
        invariant Valid()
        invariant 0 < |gathered| <= maxLen && gathered + Bytes() == all
        decreases maxLen - |gathered|
      {
        var chunk := PopBytes(maxLen - |gathered|);
        if chunk.None? {
          break;
        }
        assert gathered + (chunk.value + Bytes()) == (gathered + chunk.value) + Bytes();
        gathered := gathered + chunk.value;
      }
      Taken(gathered, Bytes(), all);
      return Some(gathered);
    }
  }
}
