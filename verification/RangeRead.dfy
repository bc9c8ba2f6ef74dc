/** Reading one range of the file: the sequential loop behind the C interface, and
    the same range taken from a media stream. */
module RangeRead {
  import opened Base
  import opened StreamSpec
  import CifsSession
  import MediaStream
  import Worker

  /** The part of the range that the file has. */
  function Range(file: seq<byte>, offset: nat, len: nat): seq<byte> {
    if offset >= |file| then [] else file[offset..Min(offset + len, |file|)]
  }

  /** The loop terminates for any replies; when every reply is some non-empty part of
      the file's bytes, however short, it returns the whole range. A server that sends all
      it has is asked once for every 65534 bytes. */
  method ReadMediaHandleAt(cifs: CifsSession.Cifs, offset: nat, requestedLen: nat) returns (r: Result<seq<byte>>)
    requires cifs.Valid()
    modifies cifs
    ensures cifs.Valid()
    ensures r.Ok? && !cifs.stale && (cifs.trust.Prefix? || cifs.trust.Exact?) ==>
        r.value == Range(cifs.file, offset, requestedLen)
    ensures r.Ok? && !cifs.stale && cifs.trust.Exact? ==>
        cifs.readCalls == old(cifs.readCalls) + (|r.value| + 65533) / 65534
    ensures old(cifs.Serving()) ==> cifs.Serving() && r == Ok(Range(cifs.file, offset, requestedLen))
  {
    hide CifsSession.Cifs.Valid, CifsSession.Cifs.Serving;
    CifsSession.ServingTrusts(cifs);
    var size := |cifs.file|;
    if requestedLen == 0 {
      return Ok([]);
    }
    if offset >= size {
      return Ok([]);
    }
    var remaining: nat := Min(requestedLen, Monus(size, offset));
    var cursor: nat := offset;
    var output: seq<byte> := [];
    ghost var honest := cifs.trust.Prefix? || cifs.trust.Exact?;
    while remaining > 0
      invariant cifs.Valid() && (old(cifs.stale) ==> cifs.stale)
      invariant old(cifs.Serving()) ==> cifs.Serving()
      invariant !cifs.stale && honest ==>
                  && cursor + remaining == Min(offset + requestedLen, size)
                  && offset <= cursor
                  && output == cifs.file[offset..cursor]
      invariant !cifs.stale && cifs.trust.Exact? ==>
                  && cifs.readCalls == old(cifs.readCalls) + (|output| + 65533) / 65534
                  && (remaining > 0 ==> |output| % 65534 == 0)
      decreases remaining
    {
      CifsSession.ServingTrusts(cifs);
      var readLen := Min(remaining, SMB_LEGACY_READ_MAX);
      var chunk := CifsSession.ServedRead(cifs, cursor, readLen);
      if chunk.Err? {
        return Err(chunk.error);
      }
      if chunk.value == [] {
        break;
      }
      output := output + chunk.value;
      cursor := cursor + |chunk.value|;
      remaining := Monus(remaining, |chunk.value|);
    }
    CifsSession.ServingTrusts(cifs);
    return Ok(output);
  }

  /** Reading blocks right after a seek, until the length is reached or nothing is left. */
  method Drain(stream: MediaStream.SmbMediaStream, cifs: CifsSession.Cifs, len: nat) returns (r: Result<seq<byte>>)
    requires stream.Sound(cifs) && stream.heard == [] && stream.start == stream.worker.Abs().playback
    modifies stream, stream.worker.stream, stream.worker.state, stream.worker.state.buffer, cifs
    ensures stream.Sound(cifs)
    ensures r.Ok? && !cifs.stale && Worker.Dependable(cifs.trust, stream.worker.state.options) ==>
              r.value == Range(cifs.file, old(stream.start), len)
    ensures old(cifs.Serving()) ==> cifs.Serving() && r.Ok?
  {
    hide CifsSession.Cifs.Valid, CifsSession.Cifs.Serving;
    var output: seq<byte> := [];
    while |output| < len
      invariant stream.Sound(cifs) && |output| <= len
      invariant stream.start == old(stream.start) && stream.heard == output
      invariant old(cifs.Serving()) ==> cifs.Serving()
      decreases len - |output|
    {
      var block, _ := stream.ReadBlock(cifs, len - |output|);
      if block.Err? {
        return Err(block.error);
      }
      if block.value.None? {
        break;
      }
      output := output + block.value.value;
    }
    return Ok(output);
  }

  /** Seeking anywhere, then reading blocks until the length is reached or nothing is
      left, gives the part the file has of the range that begins where the seek lands:
      reading from `End(-k)` on gives the last k bytes. */
  method ReadFrom(stream: MediaStream.SmbMediaStream, cifs: CifsSession.Cifs, pos: SeekFrom, len: nat)
    returns (r: Result<seq<byte>>)
    requires stream.Sound(cifs)
    modifies stream, stream.worker.stream, stream.worker.state, stream.worker.state.buffer, cifs
    ensures stream.Sound(cifs)
    ensures r.Ok? && !cifs.stale && Worker.Dependable(cifs.trust, stream.worker.state.options) ==>
              var at := match pos
                        case Start(offset) => offset as int
                        case End(delta) => |cifs.file| + delta
                        case Current(delta) => old(stream.worker.Abs()).playback + delta;
              at >= 0 && r.value == Range(cifs.file, at, len)
    ensures old(cifs.Serving()) ==>
              && cifs.Serving() && !cifs.stale
              && (r.Ok? <==> (match pos
                              case Start(offset) => offset < 0x1_0000_0000_0000_0000
                              case End(delta) => 0 <= |cifs.file| + delta < 0x1_0000_0000_0000_0000
                              case Current(delta) =>
                                0 <= old(stream.worker.Abs()).playback + delta < 0x1_0000_0000_0000_0000))
  {
    hide CifsSession.Cifs.Valid, CifsSession.Cifs.Serving;
    CifsSession.ServingTrusts(cifs);
    var moved := stream.Seek(cifs, pos);
    if moved.Err? {
      return Err(moved.error);
    }
    r := Drain(stream, cifs, len);
    CifsSession.ServingTrusts(cifs);
  }

  /** The stream gives the same range as the sequential loop. */
  method ReadRangeByStream(stream: MediaStream.SmbMediaStream, cifs: CifsSession.Cifs, offset: nat, len: nat)
    returns (r: Result<seq<byte>>)
    requires stream.Sound(cifs)
    modifies stream, stream.worker.stream, stream.worker.state, stream.worker.state.buffer, cifs
    ensures stream.Sound(cifs)
    ensures r.Ok? && !cifs.stale && Worker.Dependable(cifs.trust, stream.worker.state.options) ==>
              r.value == Range(cifs.file, offset, len)
    ensures old(cifs.Serving()) && offset < U64_LIMIT ==> cifs.Serving() && r.Ok?
  {
    hide CifsSession.Cifs.Valid, CifsSession.Cifs.Serving;
    r := ReadFrom(stream, cifs, Start(offset), len);
  }

  /** The last bytes of the file, as many as asked for or as there are. */
  method ReadTail(stream: MediaStream.SmbMediaStream, cifs: CifsSession.Cifs, count: nat)
    returns (r: Result<seq<byte>>)
    requires stream.Sound(cifs) && count <= |cifs.file|
    modifies stream, stream.worker.stream, stream.worker.state, stream.worker.state.buffer, cifs
    ensures stream.Sound(cifs)
    ensures r.Ok? && !cifs.stale && Worker.Dependable(cifs.trust, stream.worker.state.options) ==>
              r.value == cifs.file[|cifs.file| - count..]
    ensures old(cifs.Serving()) ==> cifs.Serving() && r.Ok?
  {
    hide CifsSession.Cifs.Valid, CifsSession.Cifs.Serving;
    r := ReadFrom(stream, cifs, End(0 - count), count);
  }
}
