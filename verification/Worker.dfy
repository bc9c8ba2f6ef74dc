/** The streaming worker and the media stream, as the objects the player holds.
    Every method is proved to compute the function of the same name in StreamSpec
    or StreamRuns, against any session and any server. */
module Worker {
  import opened Base
  import opened StreamSpec
  import opened StreamRuns
  import opened StreamingBuffers
  import Multiplex
  import CifsSession

  /** What a session delivers for each batch of a fill, as long as no id was reused. */
  ghost function Delivered(trust: Multiplex.Trust, file: seq<byte>): (seq<Request>, seq<seq<byte>>) -> bool {
    (reqs: seq<Request>, chunks: seq<seq<byte>>) =>
      CifsSession.AllGood(trust, file, reqs, chunks)
  }

  /** The servers a stream is faithful with: those that send every requested byte
      the file has, and, when one request is in flight at a time, also those that
      may send fewer. */
  predicate Dependable(trust: Multiplex.Trust, options: Options) {
    trust.Exact? || (trust.Prefix? && options.depth == 1)
  }

  lemma {:induction false} DeliveredNoLonger(trust: Multiplex.Trust, file: seq<byte>, s: Stream, goal: nat,
                                             batches: seq<seq<seq<byte>>>)
    requires Inv(s) && EachBatch(s, goal, batches, Delivered(trust, file)) && trust != Multiplex.Anything
    ensures EachBatch(s, goal, batches, NoLongerReply())
  {
    EachBatchWeaken(s, goal, batches, Delivered(trust, file), NoLongerReply());
  }

  ghost function InFile(file: seq<byte>,
                        p: (seq<Request>, seq<seq<byte>>) -> bool): (seq<Request>, seq<seq<byte>>) -> bool {
    (reqs: seq<Request>, chunks: seq<seq<byte>>) =>
      p(reqs, chunks) && forall i :: 0 <= i < |reqs| ==> reqs[i].offset + reqs[i].len <= |file|
  }

  /** Planned requests never pass the end of the file. */
  lemma {:induction false} PlansInFile(file: seq<byte>, s: Stream, goal: nat, batches: seq<seq<seq<byte>>>,
                                       p: (seq<Request>, seq<seq<byte>>) -> bool)
    requires Inv(s) && s.size == |file| && EachBatch(s, goal, batches, p)
    ensures EachBatch(s, goal, batches, InFile(file, p))
    decreases |batches|
  {
    if !s.eof && Plan(s, goal, s.options.depth) != [] && batches != [] {
      PlanClosedForm(s, goal, s.options.depth);
      PushBatchKeeps(s, batches[0]);
      if PushBatch(s, batches[0]).1 {
        PlansInFile(file, PushBatch(s, batches[0]).0, goal, batches[1..], p);
      }
    }
  }

  lemma {:induction false} GoodIsTrue(trust: Multiplex.Trust, file: seq<byte>, depth: nat, reqs: seq<Request>,
                                      chunks: seq<seq<byte>>)
    requires trust.Exact? || (trust.Prefix? && depth == 1)
    requires |reqs| <= depth && InFile(file, Delivered(trust, file))(reqs, chunks)
    ensures TrueReply(file)(reqs, chunks)
  {
  }

  lemma {:induction false} DeliveredTrue(trust: Multiplex.Trust, file: seq<byte>, s: Stream, goal: nat,
                                         batches: seq<seq<seq<byte>>>)
    requires Inv(s) && s.size == |file| && EachBatch(s, goal, batches, Delivered(trust, file))
    requires Dependable(trust, s.options)
    ensures EachBatch(s, goal, batches, TrueReply(file))
  {
    PlansInFile(file, s, goal, batches, Delivered(trust, file));
    forall reqs: seq<Request>, chunks: seq<seq<byte>> |
      |reqs| <= s.options.depth && InFile(file, Delivered(trust, file))(reqs, chunks)
      ensures TrueReply(file)(reqs, chunks)
    {
      GoodIsTrue(trust, file, s.options.depth, reqs, chunks);
    }
    EachBatchWeaken(s, goal, batches, InFile(file, Delivered(trust, file)), TrueReply(file));
  }

  lemma {:induction false} TrustedWilling(trust: Multiplex.Trust, file: seq<byte>, script: CifsSession.Script)
    requires CifsSession.Willing(trust, file, script)
    ensures trust.Prefix? || trust.Exact?
  {
  }

  /** A planned batch that a willing server has answered is pushed whole. */
  lemma {:induction false} ServedIsPushed(trust: Multiplex.Trust, file: seq<byte>, script: CifsSession.Script,
                                          s: Stream, goal: nat, chunks: seq<seq<byte>>)
    requires Inv(s) && s.size == |file| && CifsSession.Willing(trust, file, script)
    ensures CifsSession.WithinFile(file, Plan(s, goal, s.options.depth))
    ensures CifsSession.AllGood(trust, file, Plan(s, goal, s.options.depth), chunks) && !s.eof ==>
              PushBatch(s, chunks).1
  {
    hide CifsSession.Willing;
    var reqs := Plan(s, goal, s.options.depth);
    PlanClosedForm(s, goal, s.options.depth);
    PlanContiguous(s, goal, s.options.depth);
    TrustedWilling(trust, file, script);
    if CifsSession.AllGood(trust, file, reqs, chunks) && !s.eof {
      PushBatchAll(s, reqs, s.source, chunks);
    }
  }

  /** One turn of the planning loop. */
  lemma {:induction false} PlanOneMore(requests: seq<Request>, goal: nat, buffered: nat, position: nat, size: nat,
                                       chunk: nat, max: nat)
    requires chunk > 0 && max > 0 && buffered < goal && position < size
    ensures
      var len := Min(Min(goal - buffered, chunk), size - position);
      && len > 0
      && requests + PlanFrom(goal, buffered, position, size, chunk, max)
         == (requests + [Request(position, len)]) + PlanFrom(goal, buffered + len, position + len, size, chunk, max - 1)
  {
    var len := Min(Min(goal - buffered, chunk), size - position);
    PlanFromStep(goal, buffered, position, size, chunk, max);
    var rest := PlanFrom(goal, buffered + len, position + len, size, chunk, max - 1);
    assert requests + ([Request(position, len)] + rest) == (requests + [Request(position, len)]) + rest;
  }

  class StreamingWorkerState {
    const options: Options
    const buffer: StreamingBuffer
    const fileSize: nat
    var playbackPosition: nat
    var sourcePosition: nat
    var sourceEof: bool

    ghost function Abs(): Stream
      reads this, buffer
    {
      Stream(options, buffer.Bytes(), playbackPosition, sourcePosition, fileSize, sourceEof)
    }

    ghost predicate Valid()
      reads this, buffer
    {
      buffer.Valid() && Inv(Abs())
    }

    constructor (fileSize: nat, options: Options)
      requires ValidOptions(options) && fileSize < U64_LIMIT
      ensures Valid() && fresh(buffer) && Abs() == Fresh(options, fileSize)
    {
      this.options, this.fileSize := options, fileSize;
      buffer := new StreamingBuffer();
      playbackPosition, sourcePosition, sourceEof := 0, 0, fileSize == 0;
    }

    /** The planning loop computes the plan. */
    method NextBufferedReadRequests(bufferedGoal: nat, maxRequests: nat) returns (requests: seq<Request>)
      requires Valid()
      ensures requests == Plan(Abs(), bufferedGoal, maxRequests)
    {
      if maxRequests == 0 || sourceEof || sourcePosition >= fileSize {
        return [];
      }
      hide PlanFrom;
      ghost var plan := Plan(Abs(), bufferedGoal, maxRequests);
      var goal := Min(bufferedGoal, options.high);
      var chunk := EffectiveChunk(options);
      var buffered: nat := buffer.buffered;
      var position: nat := sourcePosition;
      requests := [];
      assert plan == PlanFrom(goal, buffered, position, fileSize, chunk, maxRequests);
      assert chunk > 0;
      hide Plan, Inv, Valid, Abs, EffectiveChunk, ValidOptions, StreamingBuffer.Valid, StreamingBuffer.Bytes;
      while |requests| < maxRequests && buffered < goal && position < fileSize
        invariant |requests| <= maxRequests
        invariant requests + PlanFrom(goal, buffered, position, fileSize, chunk, maxRequests - |requests|) == plan
        decreases maxRequests - |requests|
      {
        var len := Min(Min(goal - buffered, chunk), fileSize - position);
        PlanOneMore(requests, goal, buffered, position, fileSize, chunk, maxRequests - |requests|);
        requests := requests + [Request(position, len)];
        position := position + len;
        buffered := buffered + len;
      }
      PlanFromEnds(goal, buffered, position, fileSize, chunk, maxRequests - |requests|);
    }

    method PushSourceChunk(chunk: seq<byte>) returns (ok: bool)
      requires Valid()
      modifies this, buffer
      ensures Valid()
      ensures match PushChunk(old(Abs()), chunk)
              case Ok(s) => ok && Abs() == s
              case Err(_) => !ok && Abs() == old(Abs())
    {
      if chunk == [] {
        if sourcePosition < fileSize {
          return false;
        }
        sourceEof := true;
        return true;
      }
      if |chunk| > Monus(fileSize, sourcePosition) {
        return false;
      }
      sourcePosition := sourcePosition + |chunk|;
      buffer.Push(chunk);
      if sourcePosition >= fileSize {
        sourceEof := true;
      }
      return true;
    }

    method PopRead(maxLen: nat) returns (out: Option<seq<byte>>)
      requires Valid()
      modifies this, buffer
      ensures Valid() && (Abs(), out) == Pop(old(Abs()), maxLen)
    {
      out := buffer.PopBlock(maxLen);
      if out.Some? {
        playbackPosition := playbackPosition + |out.value|;
      }
    }

    method Seek(pos: SeekFrom) returns (r: Result<nat>)
      requires Valid()
      modifies this, buffer
      ensures Valid()
      ensures match StreamRuns.Seek(old(Abs()), pos)
              case Ok(s) => r == Ok(s.playback) && Abs() == s
              case Err(e) => r == Err(e) && Abs() == old(Abs())
    {
      var next := SeekPosition(fileSize, playbackPosition, pos);
      if next.Err? {
        return Err(next.error);
      }
      buffer.Clear();
      playbackPosition, sourcePosition := next.value, next.value;
      sourceEof := next.value >= fileSize;
      return next;
    }
  }

  class FileStream {
    const size: nat
    var position: nat

    constructor (size: nat)
      ensures this.size == size && position == 0
    {
      this.size, position := size, 0;
    }

    method Seek(pos: SeekFrom) returns (r: Result<nat>)
      modifies this
      ensures r == SeekPosition(size, old(position), pos)
      ensures position == if r.Ok? then r.value else old(position)
    {
      r := SeekPosition(size, position, pos);
      if r.Ok? {
        position := r.value;
      }
    }
  }

  class StreamingWorker {
    const stream: FileStream
    const state: StreamingWorkerState

    ghost function Abs(): Stream
      reads state, state.buffer
    {
      state.Abs()
    }

    ghost predicate Valid()
      reads stream, state, state.buffer
    {
      && state.Valid()
      && stream.size == state.fileSize
      && stream.position == state.sourcePosition
    }

    /** A worker starts where the file stream stands, which may be past the end. */
    constructor (stream: FileStream, options: Options)
      requires ValidOptions(options) && stream.size < U64_LIMIT && stream.position < U64_LIMIT
      ensures Valid() && fresh(state) && fresh(state.buffer) && this.stream == stream
      ensures Abs() == Fresh(options, stream.size).(playback := stream.position, source := stream.position,
                                                    eof := stream.position >= stream.size)
    {
      this.stream := stream;
      state := new StreamingWorkerState(stream.size, options);
      new;
      if stream.position != 0 {
        var _ := state.Seek(Start(stream.position));
      }
    }

    method Seek(pos: SeekFrom) returns (r: Result<nat>)
      requires Valid()
      modifies stream, state, state.buffer
      ensures Valid()
      ensures match StreamRuns.Seek(old(Abs()), pos)
              case Ok(s) => r == Ok(s.playback) && Abs() == s
              case Err(e) => r == Err(e) && Abs() == old(Abs())
    {
      r := state.Seek(pos);
      if r.Ok? {
        var moved := stream.Seek(Start(r.value));
      }
    }

    /** Pushes a whole received batch; the file stream follows the source position,
        also when a chunk in the middle is refused. */
    method PushAll(chunks: seq<seq<byte>>) returns (ok: bool)
      requires Valid()
      modifies stream, state, state.buffer
      ensures Valid()
      ensures PushBatch(old(Abs()), chunks) == (Abs(), ok)
    {
      ok := true;
      for i := 0 to |chunks|
        invariant Valid() && ok
        invariant PushBatch(old(Abs()), chunks) == PushBatch(Abs(), chunks[i..])
      {
        ok := state.PushSourceChunk(chunks[i]);
        if !ok {
          return;
        }
        var moved := stream.Seek(Start(state.sourcePosition));
        if state.sourceEof {
          return;
        }
        assert chunks[i..][1..] == chunks[i + 1..];
      }
    }

    /** One turn of the fill loop: plan a batch, receive it, push it. It answers
        whether there was anything to ask for; `chunks` is what was received. */
    method FillOnce(cifs: CifsSession.Cifs, bufferedGoal: nat)
      returns (r: Result<bool>, ghost chunks: Option<seq<seq<byte>>>)
      requires Valid() && cifs.Valid() && !state.sourceEof
      modifies stream, state, state.buffer, cifs
      ensures Valid() && cifs.Valid() && (old(cifs.stale) ==> cifs.stale)
      ensures var reqs := Plan(old(Abs()), bufferedGoal, state.options.depth);
              && (r == Ok(false) <==> reqs == [])
              && (chunks.None? ==> Abs() == old(Abs()) && r != Ok(true))
              && (chunks.Some? ==>
                    && reqs != [] && AnyReply()(reqs, chunks.value)
                    && (!cifs.stale ==> Delivered(cifs.trust, cifs.file)(reqs, chunks.value))
                    && PushBatch(old(Abs()), chunks.value) == (Abs(), r.Ok?))
      ensures r == Ok(true) ==> old(Abs()).source < Abs().source <= state.fileSize
      ensures old(cifs.Serving()) && state.fileSize == |cifs.file| ==> cifs.Serving() && r.Ok?
    {
      hide CifsSession.Cifs.Valid, CifsSession.Willing, CifsSession.AllGood, CifsSession.WithinFile, Plan;
      ghost var now := Abs();
      var requests := state.NextBufferedReadRequests(bufferedGoal, state.options.depth);
      if requests == [] {
        return Ok(false), None;
      }
      PlanBounds(now, bufferedGoal, state.options.depth);
      if cifs.Serving() && state.fileSize == |cifs.file| {
        ServedIsPushed(cifs.trust, cifs.file, cifs.script, now, bufferedGoal, []);
      }
      var received := CifsSession.ServedBatch(cifs, requests);
      if received.Err? {
        return Err(received.error), None;
      }
      if cifs.Serving() && state.fileSize == |cifs.file| {
        ServedIsPushed(cifs.trust, cifs.file, cifs.script, now, bufferedGoal, received.value);
      }
      var ok := PushAll(received.value);
      if !ok {
        return Err(Internal), Some(received.value);
      }
      PushBatchProgress(now, received.value);
      return Ok(true), Some(received.value);
    }

    /** The fill loop is the function `Fill` of the batches received, each of which
        is what the session delivers; it says whether it moved the source position. */
    method FillUntilBuffered(cifs: CifsSession.Cifs, bufferedGoal: nat)
      returns (r: Result<bool>, ghost batches: seq<seq<seq<byte>>>)
      requires Valid() && cifs.Valid()
      modifies stream, state, state.buffer, cifs
      ensures Valid() && cifs.Valid() && (old(cifs.stale) ==> cifs.stale)
      ensures Fill(old(Abs()), bufferedGoal, batches) == (Abs(), r.Ok?)
      ensures EachBatch(old(Abs()), bufferedGoal, batches, AnyReply())
      ensures !cifs.stale ==> EachBatch(old(Abs()), bufferedGoal, batches, Delivered(cifs.trust, cifs.file))
      ensures r.Ok? ==> (r.value <==> Abs().source > old(Abs()).source)
      ensures old(cifs.Serving()) && state.fileSize == |cifs.file| ==> cifs.Serving() && r.Ok?
    {
      hide CifsSession.Cifs.Valid, CifsSession.Cifs.Serving, StreamSpec.Inv, ValidOptions, Fill, Ran, EachBatch, Plan,
        PushBatch, Delivered, AnyReply;
      batches := [];
      var filled := false;
      ghost var start := Abs();
      ghost var good := Delivered(cifs.trust, cifs.file);
      RanNothing(start, bufferedGoal, AnyReply());
      RanNothing(start, bufferedGoal, good);
      while !state.sourceEof
        invariant Valid() && cifs.Valid() && (old(cifs.stale) ==> cifs.stale)
        invariant Ran(start, bufferedGoal, batches, Abs(), AnyReply())
        invariant !cifs.stale ==> Ran(start, bufferedGoal, batches, Abs(), good)
        invariant old(cifs.Serving()) && state.fileSize == |cifs.file| ==> cifs.Serving()
        invariant Abs().source >= start.source && (filled <==> Abs().source > start.source)
        decreases Monus(state.fileSize, state.sourcePosition)
      {
        ghost var now := Abs();
        RanStops(start, bufferedGoal, batches, now, AnyReply());
        FillWithoutReplies(now, bufferedGoal);
        if !cifs.stale {
          RanStops(start, bufferedGoal, batches, now, good);
        }
        ghost var chunks;
        var more;
        more, chunks := FillOnce(cifs, bufferedGoal);
        if chunks.Some? {
          RanOneMore(start, bufferedGoal, batches, now, AnyReply(), chunks.value);
          if !cifs.stale {
            RanOneMore(start, bufferedGoal, batches, now, good, chunks.value);
          }
          batches := batches + [chunks.value];
        }
        if more.Err? {
          return Err(more.error), batches;
        }
        if !more.value {
          return Ok(filled), batches;
        }
        filled := true;
      }
      FillWithoutReplies(Abs(), bufferedGoal);
      RanStops(start, bufferedGoal, batches, Abs(), AnyReply());
      if !cifs.stale {
        RanStops(start, bufferedGoal, batches, Abs(), good);
      }
      r := Ok(filled);
    }

    method ReadBlock(cifs: CifsSession.Cifs, maxLen: nat)
      returns (r: Result<Option<seq<byte>>>, ghost batches: seq<seq<seq<byte>>>)
      requires Valid() && cifs.Valid()
      modifies stream, state, state.buffer, cifs
      ensures Valid() && cifs.Valid() && (old(cifs.stale) ==> cifs.stale)
      ensures Abs() == Read(old(Abs()), maxLen, batches).0
      ensures if r.Ok? then r == Read(old(Abs()), maxLen, batches).1 else Read(old(Abs()), maxLen, batches).1.Err?
      ensures EachBatch(old(Abs()), ReadGoal(old(Abs()), maxLen), batches, AnyReply())
      ensures !cifs.stale ==>
                EachBatch(old(Abs()), ReadGoal(old(Abs()), maxLen), batches, Delivered(cifs.trust, cifs.file))
      ensures old(cifs.Serving()) && state.fileSize == |cifs.file| ==> cifs.Serving() && r.Ok?
    {
      hide CifsSession.Cifs.Valid, CifsSession.Cifs.Serving, Fill, Plan;
      batches := [];
      if maxLen == 0 {
        return Ok(None), [];
      }
      if state.buffer.buffered < maxLen && !(state.sourceEof && state.buffer.buffered == 0) {
        var filled;
        filled, batches := FillUntilBuffered(cifs, Max(maxLen, state.options.low));
        if filled.Err? {
          return Err(filled.error), batches;
        }
      }
      var out := state.PopRead(maxLen);
      return Ok(out), batches;
    }
  }

  /** Making a state or a worker checks the options first. */
  method NewState(fileSize: nat, options: Options) returns (r: Result<StreamingWorkerState>)
    requires fileSize < U64_LIMIT
    ensures r.Ok? <==>
              && 0 < options.capacity && 0 < options.chunkSize <= 1048576
              && 0 < options.high && options.low <= options.high <= options.capacity && 0 < options.depth <= 16
    ensures r.Err? ==> r.error == InvalidConfig
    ensures r.Ok? ==>
        r.value.Valid() && r.value.Abs() == Fresh(options, fileSize) && fresh(r.value) && fresh(r.value.buffer)
  {
    if !ValidOptions(options) {
      return Err(InvalidConfig);
    }
    var state := new StreamingWorkerState(fileSize, options);
    return Ok(state);
  }

  method NewWorker(stream: FileStream, options: Options) returns (r: Result<StreamingWorker>)
    requires stream.size < U64_LIMIT && stream.position < U64_LIMIT
    ensures r.Ok? <==>
              && 0 < options.capacity && 0 < options.chunkSize <= 1048576
              && 0 < options.high && options.low <= options.high <= options.capacity && 0 < options.depth <= 16
    ensures r.Err? ==> r.error == InvalidConfig
    ensures r.Ok? ==>
              && r.value.Valid() && r.value.stream == stream
              && fresh(r.value) && fresh(r.value.state) && fresh(r.value.state.buffer)
              && r.value.Abs() == Fresh(options, stream.size).(playback := stream.position, source := stream.position,
                                                               eof := stream.position >= stream.size)
  {
    if !ValidOptions(options) {
      return Err(InvalidConfig);
    }
    var worker := new StreamingWorker(stream, options);
    return Ok(worker);
  }
}
