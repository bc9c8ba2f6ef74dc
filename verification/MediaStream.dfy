/** The media stream the player holds, and every run a player can make of it. */
module MediaStream {
  import opened Base
  import opened StreamSpec
  import opened StreamRuns
  import opened Worker
  import Multiplex
  import CifsSession

  lemma {:induction false} RepliesNoLonger(trust: Multiplex.Trust, file: seq<byte>, t: Session, a: Action)
    requires Inv(t.stream) && StepReplies(t, a, Delivered(trust, file)) && trust != Multiplex.Anything
    ensures StepReplies(t, a, NoLongerReply())
  {
    match a
    case DoSeek(_) =>
    case DoFill(goal, batches) => DeliveredNoLonger(trust, file, t.stream, goal, batches);
    case DoPrefill(batches) => DeliveredNoLonger(trust, file, t.stream, t.stream.options.high, batches);
    case DoRead(maxLen, batches) => DeliveredNoLonger(trust, file, t.stream, ReadGoal(t.stream, maxLen), batches);
  }

  lemma {:induction false} RepliesTrue(trust: Multiplex.Trust, file: seq<byte>, t: Session, a: Action)
    requires Inv(t.stream) && t.stream.size == |file| && StepReplies(t, a, Delivered(trust, file))
    requires Dependable(trust, t.stream.options)
    ensures StepReplies(t, a, TrueReply(file))
  {
    match a
    case DoSeek(_) =>
    case DoFill(goal, batches) => DeliveredTrue(trust, file, t.stream, goal, batches);
    case DoPrefill(batches) => DeliveredTrue(trust, file, t.stream, t.stream.options.high, batches);
    case DoRead(maxLen, batches) => DeliveredTrue(trust, file, t.stream, ReadGoal(t.stream, maxLen), batches);
  }

  class SmbMediaStream {
    const worker: StreamingWorker
    const initialBufferSize: nat

    /** Where the player last sought to, and the bytes it has been given since. */
    ghost var start: nat
    ghost var heard: seq<byte>

    ghost function State(): Session
      reads this, worker.state, worker.state.buffer
    {
      Session(worker.Abs(), start, heard)
    }

    /** The stream of this session's file: consistent always; within its watermark
        when no reply is longer than asked for; and faithful to the file when the
        server is dependable. The last two assume no id was reused while live. */
    ghost predicate Sound(cifs: CifsSession.Cifs)
      reads this, worker.stream, worker.state, worker.state.buffer, cifs
    {
      && worker.Valid() && cifs.Valid()
      && worker.state.fileSize == |cifs.file|
      && (!cifs.stale && cifs.trust != Multiplex.Anything ==> WithinHigh(worker.Abs()))
      && (!cifs.stale && Dependable(cifs.trust, worker.state.options) ==> Faithful(cifs.file, State()))
    }

    constructor (cifs: CifsSession.Cifs, options: Options, initialBufferSize: nat)
      requires cifs.Valid() && |cifs.file| < U64_LIMIT
      requires ValidOptions(options) && initialBufferSize <= options.high
      ensures Sound(cifs)
      ensures fresh(worker) && fresh(worker.stream) && fresh(worker.state) && fresh(worker.state.buffer)
      ensures State() == Session(Fresh(options, |cifs.file|), 0, []) && this.initialBufferSize == initialBufferSize
    {
      var stream := new FileStream(|cifs.file|);
      worker := new StreamingWorker(stream, options);
      this.initialBufferSize := initialBufferSize;
      start, heard := 0, [];
    }

    /** A step of the specification keeps a sound stream sound. */
    lemma {:induction false} StepSound(cifs: CifsSession.Cifs, before: Session, a: Action)
      requires Inv(before.stream) && before.stream.size == |cifs.file| && before.stream.options == worker.state.options
      requires worker.Valid() && cifs.Valid() && worker.state.fileSize == |cifs.file|
      requires State() == Step(before, a)
      requires !cifs.stale ==> StepReplies(before, a, Delivered(cifs.trust, cifs.file))
      requires !cifs.stale && cifs.trust != Multiplex.Anything ==> WithinHigh(before.stream)
      requires !cifs.stale && Dependable(cifs.trust, worker.state.options) ==> Faithful(cifs.file, before)
      ensures Sound(cifs)
    {
      hide CifsSession.Cifs.Valid;
      if !cifs.stale && cifs.trust != Multiplex.Anything {
        RepliesNoLonger(cifs.trust, cifs.file, before, a);
        StepWithinHigh(before, a);
      }
      if !cifs.stale && Dependable(cifs.trust, worker.state.options) {
        RepliesTrue(cifs.trust, cifs.file, before, a);
        StepFaithful(cifs.file, before, a);
      }
    }

    method Seek(cifs: CifsSession.Cifs, pos: SeekFrom) returns (r: Result<nat>)
      requires Sound(cifs)
      modifies this, worker.stream, worker.state, worker.state.buffer
      ensures Sound(cifs)
      ensures State() == Step(old(State()), DoSeek(pos))
      ensures r.Ok? <==> (match pos
                          case Start(offset) => offset < 0x1_0000_0000_0000_0000
                          case End(delta) => 0 <= |cifs.file| + delta < 0x1_0000_0000_0000_0000
                          case Current(delta) => 0 <= old(worker.Abs()).playback + delta < 0x1_0000_0000_0000_0000)
      ensures r.Ok? ==> (match pos
                         case Start(offset) => r.value == offset
                         case End(delta) => r.value == |cifs.file| + delta
                         case Current(delta) => r.value == old(worker.Abs()).playback + delta)
      ensures r.Ok? ==> start == worker.Abs().playback == worker.Abs().source == r.value && heard == []
      ensures r.Err? ==> r.error == Internal
      ensures r.Err? ==> State() == old(State())
    {
      hide CifsSession.Cifs.Valid;
      r := worker.Seek(pos);
      if r.Ok? {
        start, heard := r.value, [];
      }
      StepSound(cifs, old(State()), DoSeek(pos));
    }

    method FillInitialBuffer(cifs: CifsSession.Cifs) returns (r: Result<bool>, ghost batches: seq<seq<seq<byte>>>)
      requires Sound(cifs)
      modifies worker.stream, worker.state, worker.state.buffer, cifs
      ensures Sound(cifs) && (old(cifs.stale) ==> cifs.stale)
      ensures initialBufferSize > 0 ==> State() == Step(old(State()), DoFill(initialBufferSize, batches))
      ensures initialBufferSize == 0 ==> r == Ok(false) && State() == old(State())
      ensures
        var before, after := old(worker.Abs()), worker.Abs();
        && (r.Ok? ==> (r.value <==> |after.buffered| > |before.buffered|))
        && (r.Ok? && !cifs.stale && cifs.trust != Multiplex.Anything ==>
              |after.buffered|
              == Max(|before.buffered|,
                     Min(Min(initialBufferSize, before.options.high), Monus(|cifs.file|, before.playback))))
      ensures EachBatch(old(worker.Abs()), initialBufferSize, batches, AnyReply())
      ensures old(cifs.Serving()) ==> cifs.Serving() && r.Ok?
    {
      hide CifsSession.Cifs.Valid, CifsSession.Cifs.Serving, Fill, Plan;
      if initialBufferSize == 0 {
        return Ok(false), [];
      }
      ghost var before := worker.Abs();
      r, batches := worker.FillUntilBuffered(cifs, initialBufferSize);
      FillKeeps(before, initialBufferSize, batches);
      if r.Ok? && !cifs.stale && cifs.trust != Multiplex.Anything {
        DeliveredNoLonger(cifs.trust, cifs.file, before, initialBufferSize, batches);
        FillLevel(before, initialBufferSize, batches);
      }
      StepSound(cifs, old(State()), DoFill(initialBufferSize, batches));
    }

    method MaybePrefill(cifs: CifsSession.Cifs) returns (r: Result<bool>, ghost batches: seq<seq<seq<byte>>>)
      requires Sound(cifs)
      modifies worker.stream, worker.state, worker.state.buffer, cifs
      ensures Sound(cifs) && (old(cifs.stale) ==> cifs.stale)
      ensures State() == Step(old(State()), DoPrefill(batches))
      ensures
        var before, after := old(worker.Abs()), worker.Abs();
        && (before.eof || |before.buffered| > before.options.low ==> r == Ok(false) && State() == old(State()))
        && (r.Ok? ==> (r.value <==> |after.buffered| > |before.buffered|))
        && (r.Ok? && !cifs.stale && cifs.trust != Multiplex.Anything
            && !before.eof && |before.buffered| <= before.options.low ==>
              |after.buffered|
              == Max(|before.buffered|, Min(before.options.high, Monus(|cifs.file|, before.playback))))
      ensures old(cifs.Serving()) ==> cifs.Serving() && r.Ok?
    {
      hide CifsSession.Cifs.Valid, CifsSession.Cifs.Serving, Fill, Plan;
      batches := [];
      ghost var before := worker.Abs();
      var state := worker.state;
      if state.sourceEof || state.buffer.buffered > state.options.low || state.buffer.buffered >= state.options.high {
        return Ok(false), [];
      }
      r, batches := worker.FillUntilBuffered(cifs, state.options.high);
      FillKeeps(before, state.options.high, batches);
      if r.Ok? && !cifs.stale && cifs.trust != Multiplex.Anything {
        DeliveredNoLonger(cifs.trust, cifs.file, before, state.options.high, batches);
        FillLevel(before, state.options.high, batches);
      }
      StepSound(cifs, old(State()), DoPrefill(batches));
    }

    /** Reading: it never stalls, and with a dependable server the block is the
        file's bytes from the playback position on. */
    method ReadBlock(cifs: CifsSession.Cifs, maxLen: nat)
      returns (r: Result<Option<seq<byte>>>, ghost batches: seq<seq<seq<byte>>>)
      requires Sound(cifs)
      modifies this, worker.stream, worker.state, worker.state.buffer, cifs
      ensures Sound(cifs) && (old(cifs.stale) ==> cifs.stale)
      ensures State() == Step(old(State()), DoRead(maxLen, batches))
      ensures r.Ok? ==> (r.value.None? <==> maxLen == 0 || Finished(old(worker.Abs())))
      ensures r.Ok? && r.value.Some? ==>
                && 0 < |r.value.value| <= maxLen
                && (|r.value.value| == maxLen || worker.Abs().buffered == [])
                && heard == old(heard) + r.value.value
      ensures
        var before, after := old(worker.Abs()), worker.Abs();
        var given := if r.Ok? && r.value.Some? then |r.value.value| else 0;
        var rest := Monus(|cifs.file|, before.playback);
        && after.playback == before.playback + given
        && (before.eof || |before.buffered| >= maxLen ==> r.Ok? && given + |after.buffered| == |before.buffered|)
        && (r.Ok? && !cifs.stale && cifs.trust != Multiplex.Anything && maxLen > 0 ==>
              && given == Min(maxLen, Max(|before.buffered|, Min(before.options.high, rest)))
              && (|before.buffered| < maxLen ==>
                    given + |after.buffered|
                    == Max(|before.buffered|, Min(Min(Max(maxLen, before.options.low), before.options.high), rest))))
      ensures !(r.Ok? && r.value.Some?) ==> heard == old(heard)
      ensures start == old(start)
      ensures old(cifs.Serving()) ==> cifs.Serving() && r.Ok?
    {
      hide CifsSession.Cifs.Valid, CifsSession.Cifs.Serving, Fill, Plan, EachBatch;
      ghost var before := State();
      r, batches := worker.ReadBlock(cifs, maxLen);
      if r.Ok? {
        ReadNeverStalls(before.stream, maxLen, batches);
        if r.value.Some? {
          heard := heard + r.value.value;
        }
      }
      ReadMoves(before.stream, maxLen, batches);
      if r.Ok? && !cifs.stale && cifs.trust != Multiplex.Anything && maxLen > 0 {
        RepliesNoLonger(cifs.trust, cifs.file, before, DoRead(maxLen, batches));
        ReadAmount(before.stream, maxLen, batches);
      }
      StepSound(cifs, before, DoRead(maxLen, batches));
    }
  }

  /** Opening checks the options as `validate` does. */
  method OpenMediaStream(cifs: CifsSession.Cifs, options: Options, initialBufferSize: nat)
    returns (r: Result<SmbMediaStream>)
    requires cifs.Valid() && |cifs.file| < U64_LIMIT
    ensures r.Ok? <==>
              && 0 < options.capacity && 0 < options.chunkSize <= 1048576
              && 0 < options.high && options.low <= options.high <= options.capacity && 0 < options.depth <= 16
              && initialBufferSize <= options.high
    ensures r.Err? ==> r.error == InvalidConfig
    ensures r.Ok? ==>
              && r.value.Sound(cifs) && r.value.State() == Session(Fresh(options, |cifs.file|), 0, [])
              && r.value.initialBufferSize == initialBufferSize
  {
    if !ValidOptions(options) || initialBufferSize > options.high {
      return Err(InvalidConfig);
    }
    var stream := new SmbMediaStream(cifs, options, initialBufferSize);
    return Ok(stream);
  }

  /** The part of the file between two positions; nothing from past its end on. */
  function Slice(file: seq<byte>, from: nat, to: nat): seq<byte> {
    if from <= to <= |file| then file[from..to] else []
  }

  datatype Call = CallSeek(pos: SeekFrom) | CallFillInitial | CallPrefill | CallRead(maxLen: nat)

  /** Any player: a list of calls, some of which fail or are abandoned part-way and
      may be made again. It keeps the blocks it was given since its last seek.
      `actions` is the run as the specification sees it, each call with the batches it
      received; whatever the server, if all those replies were true and only the last of
      a batch was short, the blocks are the file. So they are if the server is dependable
      and the session has allocated at most 65536 ids, or more but never one that was
      still live. */
  method Play(stream: SmbMediaStream, cifs: CifsSession.Cifs, calls: seq<Call>)
    returns (blocks: seq<seq<byte>>, failed: nat, ghost actions: seq<Action>)
    requires stream.Sound(cifs) && stream.heard == []
    modifies stream, stream.worker.stream, stream.worker.state, stream.worker.state.buffer, cifs
    ensures stream.Sound(cifs)
    ensures ValidOptions(old(stream.State()).stream.options) && stream.State() == Run(old(stream.State()), actions)
    ensures Flatten(blocks) == stream.heard
    ensures Faithful(cifs.file, old(stream.State()))
            && RunReplies(old(stream.State()), actions, TrueReply(cifs.file)) ==>
              Flatten(blocks) == Slice(cifs.file, stream.start, stream.worker.Abs().playback)
    ensures !cifs.stale && Dependable(cifs.trust, stream.worker.state.options) ==>
              Flatten(blocks) == Slice(cifs.file, stream.start, stream.worker.Abs().playback)
    ensures cifs.stale ==> |cifs.requests| > Multiplex.MIDS
    ensures old(cifs.Serving()) ==> !cifs.stale && failed == 0
  {
    hide Run, Step, CifsSession.Cifs.Valid, CifsSession.Cifs.Serving;
    blocks, failed, actions := [], 0, [];
    ghost var start := stream.State();
    RunNothing(start);
    for i := 0 to |calls|
      invariant stream.Sound(cifs) && Flatten(blocks) == stream.heard
      invariant stream.State() == Run(start, actions)
      invariant failed <= i && (old(cifs.Serving()) ==> cifs.Serving() && failed == 0)
    {
      ghost var before, action := stream.State(), DoPrefill([]);
      ghost var batches;
      match calls[i] {
        case CallSeek(pos) =>
          var moved := stream.Seek(cifs, pos);
          if moved.Ok? {
            blocks := [];
          }
          action := DoSeek(pos);
        case CallFillInitial =>
          var filled;
          filled, batches := stream.FillInitialBuffer(cifs);
          failed := failed + (if filled.Err? then 1 else 0);
          action := DoFill(stream.initialBufferSize, batches);
          FillNothing(before);
        case CallPrefill =>
          var filled;
          filled, batches := stream.MaybePrefill(cifs);
          failed := failed + (if filled.Err? then 1 else 0);
          action := DoPrefill(batches);
        case CallRead(maxLen) =>
          var block;
          block, batches := stream.ReadBlock(cifs, maxLen);
          failed := failed + (if block.Err? then 1 else 0);
          action := DoRead(maxLen, batches);
          if block.Ok? && block.value.Some? {
            FlattenPush(blocks, block.value.value);
            blocks := blocks + [block.value.value];
          }
      }
      RunOneMore(start, actions, action);
      actions := actions + [action];
    }
    cifs.StaleLate();
    CifsSession.ServingTrusts(cifs);
    if Faithful(cifs.file, start) && RunReplies(start, actions, TrueReply(cifs.file)) {
      RunFaithful(cifs.file, start, actions);
    }
  }
}
