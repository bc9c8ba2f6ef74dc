/** Whole runs of the stream: filling, seeking and reading, with any replies,
    any interruptions and any interleaving of calls. */
module StreamRuns {
  import opened Base
  import opened StreamSpec

  // ----- Filling -----

  /** The fill loop against the batches it receives; a list that runs out while
      bytes are still wanted is a call that failed or was abandoned there. The
      flag says whether the call returned successfully. */
  function Fill(s: Stream, goal: nat, batches: seq<seq<seq<byte>>>): (r: (Stream, bool))
    requires ValidOptions(s.options)
    ensures r.0.options == s.options
    decreases |batches|
  {
    if s.eof || Plan(s, goal, s.options.depth) == [] then (s, true)
    else if batches == [] then (s, false)
    else
      var (s', ok) := PushBatch(s, batches[0]);
      if !ok then (s', false) else Fill(s', goal, batches[1..])
  }

  /** A property of each batch, relative to the requests it answers. */
  ghost predicate EachBatch(s: Stream, goal: nat, batches: seq<seq<seq<byte>>>,
                            p: (seq<Request>, seq<seq<byte>>) -> bool)
    requires ValidOptions(s.options)
    decreases |batches|
  {
    var reqs := Plan(s, goal, s.options.depth);
    s.eof || reqs == [] || batches == []
    || (&& p(reqs, batches[0])
        && (var (s', ok) := PushBatch(s, batches[0]);
            !ok || EachBatch(s', goal, batches[1..], p)))
  }

  /** The reply may be anything at all. */
  ghost function AnyReply(): (seq<Request>, seq<seq<byte>>) -> bool {
    (reqs: seq<Request>, chunks: seq<seq<byte>>) => |chunks| == |reqs|
  }

  ghost function NoLongerReply(): (seq<Request>, seq<seq<byte>>) -> bool {
    (reqs: seq<Request>, chunks: seq<seq<byte>>) => NoLonger(reqs, chunks)
  }

  /** True bytes, and full length for every reply but the last of its batch. */
  ghost function TrueReply(file: seq<byte>): (seq<Request>, seq<seq<byte>>) -> bool {
    (reqs: seq<Request>, chunks: seq<seq<byte>>) => TrueBytes(file, reqs, chunks) && FullButLast(reqs, chunks)
  }

  lemma {:induction false} FillKeeps(s: Stream, goal: nat, batches: seq<seq<seq<byte>>>)
    requires Inv(s)
    ensures
      var s' := Fill(s, goal, batches).0;
      && Inv(s')
      && s'.playback == s.playback && s'.size == s.size && s'.options == s.options
      && s.source <= s'.source && s.buffered <= s'.buffered
      && (s.source <= s.size ==> s'.source <= s.size)
    decreases |batches|
  {
    if !s.eof && Plan(s, goal, s.options.depth) != [] && batches != [] {
      PushBatchKeeps(s, batches[0]);
      var (s', ok) := PushBatch(s, batches[0]);
      if ok {
        FillKeeps(s', goal, batches[1..]);
      }
    }
  }

  /** Where a successful fill ends: nothing is left to ask for, and a stream that
      was short of both the goal and the end of the file has grown. */
  lemma {:induction false} FillDone(s: Stream, goal: nat, batches: seq<seq<seq<byte>>>)
    requires Inv(s) && Fill(s, goal, batches).1
    requires EachBatch(s, goal, batches, AnyReply())
    ensures
      var s' := Fill(s, goal, batches).0;
      s'.eof || |s'.buffered| >= Min(goal, s.options.high)
    decreases |batches|
  {
    PlanClosedForm(s, goal, s.options.depth);
    if !s.eof && Plan(s, goal, s.options.depth) != [] {
      PushBatchKeeps(s, batches[0]);
      FillDone(PushBatch(s, batches[0]).0, goal, batches[1..]);
    }
  }

  /** No reply longer than its request: the fill never overshoots. */
  lemma {:induction false} FillBound(s: Stream, goal: nat, batches: seq<seq<seq<byte>>>)
    requires Inv(s) && EachBatch(s, goal, batches, NoLongerReply())
    ensures
      var s' := Fill(s, goal, batches).0;
      |s'.buffered| <= Max(|s.buffered|, Min(goal, s.options.high))
    decreases |batches|
  {
    var reqs := Plan(s, goal, s.options.depth);
    if !s.eof && reqs != [] && batches != [] {
      PlanContiguous(s, goal, s.options.depth);
      PlanClosedForm(s, goal, s.options.depth);
      PushBatchBound(s, reqs, batches[0]);
      PushBatchKeeps(s, batches[0]);
      var (s', ok) := PushBatch(s, batches[0]);
      if ok {
        FillBound(s', goal, batches[1..]);
      }
    }
  }

  /** A property of replies may be weakened, for batches within the pipeline depth. */
  lemma {:induction false} EachBatchWeaken(s: Stream, goal: nat, batches: seq<seq<seq<byte>>>,
                                           p: (seq<Request>, seq<seq<byte>>) -> bool,
                                           q: (seq<Request>, seq<seq<byte>>) -> bool)
    requires Inv(s) && EachBatch(s, goal, batches, p)
    requires forall reqs, chunks :: |reqs| <= s.options.depth && p(reqs, chunks) ==> q(reqs, chunks)
    ensures EachBatch(s, goal, batches, q)
    decreases |batches|
  {
    if !s.eof && Plan(s, goal, s.options.depth) != [] && batches != [] {
      PlanClosedForm(s, goal, s.options.depth);
      PushBatchKeeps(s, batches[0]);
      if PushBatch(s, batches[0]).1 {
        EachBatchWeaken(PushBatch(s, batches[0]).0, goal, batches[1..], p, q);
      }
    }
  }

  /** The level a successful fill reaches, for any replies no longer than requested:
      the goal, the high watermark or the rest of the file, whichever is least,
      and never less than before. */
  lemma {:induction false} FillLevel(s: Stream, goal: nat, batches: seq<seq<seq<byte>>>)
    requires Inv(s) && Fill(s, goal, batches).1
    requires EachBatch(s, goal, batches, NoLongerReply())
    ensures |Fill(s, goal, batches).0.buffered|
         == Max(|s.buffered|, Min(Min(goal, s.options.high), Monus(s.size, s.playback)))
  {
    EachBatchWeaken(s, goal, batches, NoLongerReply(), AnyReply());
    FillKeeps(s, goal, batches);
    FillDone(s, goal, batches);
    FillBound(s, goal, batches);
    if s.eof {
      assert Fill(s, goal, batches).0 == s;
    }
  }

  /** The fill has taken all these batches, each with property `p`, and goes on from `now`. */
  ghost predicate Ran(s: Stream, goal: nat, batches: seq<seq<seq<byte>>>, now: Stream,
                      p: (seq<Request>, seq<seq<byte>>) -> bool)
    requires ValidOptions(s.options)
    decreases |batches|
  {
    if batches == [] then s == now
    else
      && !s.eof && Plan(s, goal, s.options.depth) != [] && p(Plan(s, goal, s.options.depth), batches[0])
      && (var (s', ok) := PushBatch(s, batches[0]);
          ok && Ran(s', goal, batches[1..], now, p))
  }

  lemma {:induction false} RanNothing(s: Stream, goal: nat, p: (seq<Request>, seq<seq<byte>>) -> bool)
    requires Inv(s)
    ensures ValidOptions(s.options) && Ran(s, goal, [], s, p)
  {
  }

  lemma {:induction false} FillWithoutReplies(s: Stream, goal: nat)
    requires ValidOptions(s.options)
    ensures Fill(s, goal, []) == (s, s.eof || Plan(s, goal, s.options.depth) == [])
  {
  }

  lemma {:induction false} RanStops(s: Stream, goal: nat, batches: seq<seq<seq<byte>>>, now: Stream,
                                    p: (seq<Request>, seq<seq<byte>>) -> bool)
    requires Inv(s) && Ran(s, goal, batches, now, p)
    ensures Inv(now) && now.options == s.options && now.size == s.size
    ensures Fill(s, goal, batches) == Fill(now, goal, [])
    ensures EachBatch(s, goal, batches, p)
    decreases |batches|
  {
    if batches != [] {
      PushBatchKeeps(s, batches[0]);
      RanStops(PushBatch(s, batches[0]).0, goal, batches[1..], now, p);
    }
  }

  lemma {:induction false} RanOneMore(s: Stream, goal: nat, batches: seq<seq<seq<byte>>>, now: Stream,
                                      p: (seq<Request>, seq<seq<byte>>) -> bool, chunks: seq<seq<byte>>)
    requires Inv(s) && Ran(s, goal, batches, now, p) && ValidOptions(now.options)
    requires !now.eof && Plan(now, goal, now.options.depth) != [] && p(Plan(now, goal, now.options.depth), chunks)
    ensures EachBatch(s, goal, batches + [chunks], p)
    ensures PushBatch(now, chunks).1 ==> Ran(s, goal, batches + [chunks], PushBatch(now, chunks).0, p)
    ensures !PushBatch(now, chunks).1 ==> Fill(s, goal, batches + [chunks]) == (PushBatch(now, chunks).0, false)
    decreases |batches|
  {
    if batches == [] {
      PushBatchKeeps(s, chunks);
      assert (batches + [chunks])[1..] == [];
    } else {
      PushBatchKeeps(s, batches[0]);
      assert (batches + [chunks])[0] == batches[0] && (batches + [chunks])[1..] == batches[1..] + [chunks];
      RanOneMore(PushBatch(s, batches[0]).0, goal, batches[1..], now, p, chunks);
    }
  }

  /** Filling terminates whatever the server sends: it never takes more batches
      than there are bytes between the source position and the end of the file. */
  lemma {:induction false} FillTerminates(s: Stream, goal: nat, batches: seq<seq<seq<byte>>>, more: seq<seq<seq<byte>>>)
    requires Inv(s) && EachBatch(s, goal, batches, AnyReply())
    requires |batches| >= Monus(s.size, s.source)
    ensures Fill(s, goal, batches + more) == Fill(s, goal, batches)
    decreases |batches|
  {
    if !s.eof && Plan(s, goal, s.options.depth) != [] {
      assert (batches + more)[1..] == batches[1..] + more;
      PushBatchKeeps(s, batches[0]);
      if PushBatch(s, batches[0]).1 {
        PushBatchProgress(s, batches[0]);
        FillTerminates(PushBatch(s, batches[0]).0, goal, batches[1..], more);
      }
    }
  }

  lemma {:induction false} FillFaithful(file: seq<byte>, s: Stream, goal: nat, batches: seq<seq<seq<byte>>>)
    requires Inv(s) && Fidelity(file, s) && EachBatch(s, goal, batches, TrueReply(file))
    ensures Fidelity(file, Fill(s, goal, batches).0)
    decreases |batches|
  {
    var reqs := Plan(s, goal, s.options.depth);
    if !s.eof && reqs != [] && batches != [] {
      PlanContiguous(s, goal, s.options.depth);
      PushBatchFaithful(file, s, reqs, batches[0]);
      PushBatchKeeps(s, batches[0]);
      var (s', ok) := PushBatch(s, batches[0]);
      if ok {
        FillFaithful(file, s', goal, batches[1..]);
      }
    }
  }

  // ----- Seeking, prefilling and reading -----

  function SeekPosition(size: nat, current: nat, pos: SeekFrom): Result<nat> {
    var next := match pos
      case Start(offset) => offset as int
      case End(delta) => size + delta
      case Current(delta) => current + delta;
    if next < 0 || next >= U64_LIMIT then Err(Internal) else Ok(next)
  }

  function Seek(s: Stream, pos: SeekFrom): Result<Stream> {
    var next :- SeekPosition(s.size, s.playback, pos);
    Ok(s.(buffered := [], playback := next, source := next, eof := next >= s.size))
  }

  /** A seek to an offset succeeds when the offset has 64 bits, and starts afresh there. */
  lemma {:induction false} SeekFromStart(s: Stream, offset: nat)
    ensures Seek(s, Start(offset)).Ok? <==> offset < 0x1_0000_0000_0000_0000
    ensures
      Seek(s, Start(offset)).Ok? ==>
        var s' := Seek(s, Start(offset)).value;
        && s'.playback == s'.source == offset && s'.buffered == []
        && (s'.eof <==> offset >= s.size)
        && s'.size == s.size && s'.options == s.options
  {
  }

  /** A seek from the end is the seek to the size plus the distance, wherever the stream is. */
  lemma {:induction false} SeekFromEnd(s: Stream, delta: int)
    ensures Seek(s, End(delta)).Ok? <==> 0 <= s.size + delta < 0x1_0000_0000_0000_0000
    ensures s.size + delta >= 0 ==> Seek(s, End(delta)) == Seek(s, Start(s.size + delta))
  {
  }

  /** A seek from the current position is the seek to the playback position plus the
      distance; bytes that were only buffered do not count. */
  lemma {:induction false} SeekFromCurrent(s: Stream, delta: int)
    ensures Seek(s, Current(delta)).Ok? <==> 0 <= s.playback + delta < 0x1_0000_0000_0000_0000
    ensures s.playback + delta >= 0 ==> Seek(s, Current(delta)) == Seek(s, Start(s.playback + delta))
  {
  }

  /** A seek by nothing after a seek lands where that one did; and a seek from the end
      by the distance to the playback position is the one by nothing. */
  lemma {:induction false} SeeksAgree(s: Stream, pos: SeekFrom)
    requires Seek(s, pos).Ok?
    ensures Seek(Seek(s, pos).value, Current(0)) == Seek(s, pos)
    ensures Inv(s) ==> Seek(s, End(s.playback - s.size)) == Seek(s, Current(0))
  {
  }

  predicate ShouldPrefill(s: Stream) {
    !s.eof && |s.buffered| <= s.options.low && |s.buffered| < s.options.high
  }

  function Prefill(s: Stream, batches: seq<seq<seq<byte>>>): (Stream, bool)
    requires ValidOptions(s.options)
  {
    if ShouldPrefill(s) then Fill(s, s.options.high, batches) else (s, true)
  }

  predicate Finished(s: Stream) { s.eof && s.buffered == [] }

  function Pop(s: Stream, maxLen: nat): (Stream, Option<seq<byte>>) {
    var n := Min(maxLen, |s.buffered|);
    if n == 0 then (s, None)
    else (s.(buffered := s.buffered[n..], playback := s.playback + n), Some(s.buffered[..n]))
  }

  function ReadGoal(s: Stream, maxLen: nat): nat { Max(maxLen, s.options.low) }

  predicate ReadFills(s: Stream, maxLen: nat) { |s.buffered| < maxLen && !Finished(s) }

  /** The fill a read makes first, when the buffer does not already hold enough. */
  function FillFor(s: Stream, maxLen: nat, batches: seq<seq<seq<byte>>>): (Stream, bool)
    requires ValidOptions(s.options)
  {
    if ReadFills(s, maxLen) then Fill(s, ReadGoal(s, maxLen), batches) else (s, true)
  }

  function Read(s: Stream, maxLen: nat, batches: seq<seq<seq<byte>>>): (Stream, Result<Option<seq<byte>>>)
    requires ValidOptions(s.options)
  {
    if maxLen == 0 then (s, Ok(None))
    else
      var (filled, ok) := FillFor(s, maxLen, batches);
      if !ok then (filled, Err(Timeout))
      else
        var (s', out) := Pop(filled, maxLen);
        (s', Ok(out))
  }

  /** A successful fill of an empty, unfinished buffer brings something. */
  lemma {:induction false} FillGrows(s: Stream, goal: nat, batches: seq<seq<seq<byte>>>)
    requires Inv(s) && !s.eof && s.buffered == [] && goal > 0
    requires EachBatch(s, goal, batches, AnyReply()) && Fill(s, goal, batches).1
    ensures Fill(s, goal, batches).0.buffered != []
  {
    PlanClosedForm(s, goal, s.options.depth);
    PushBatchKeeps(s, batches[0]);
    PushBatchProgress(s, batches[0]);
    FillKeeps(PushBatch(s, batches[0]).0, goal, batches[1..]);
  }

  /** Reading never stalls: a successful read gives nothing only when nothing was
      asked for or the stream was finished; otherwise it gives a non-empty block,
      as long as the request or all there is. */
  lemma {:induction false} ReadNeverStalls(s: Stream, maxLen: nat, batches: seq<seq<seq<byte>>>)
    requires Inv(s) && Read(s, maxLen, batches).1.Ok?
    requires EachBatch(s, ReadGoal(s, maxLen), batches, AnyReply())
    ensures
      var out := Read(s, maxLen, batches).1.value;
      var filled := FillFor(s, maxLen, batches).0;
      && (out.None? <==> maxLen == 0 || Finished(s))
      && (out.Some? ==>
          0 < |out.value| == Min(maxLen, |filled.buffered|) && out.value == filled.buffered[..|out.value|])
  {
    if ReadFills(s, maxLen) {
      FillKeeps(s, ReadGoal(s, maxLen), batches);
      FillDone(s, ReadGoal(s, maxLen), batches);
      if !s.eof && s.buffered == [] {
        FillGrows(s, ReadGoal(s, maxLen), batches);
      }
    }
  }

  /** A read moves the playback position by what it gives, and a read that needs no bytes
      from the server succeeds and only moves them. */
  lemma {:induction false} ReadMoves(s: Stream, maxLen: nat, batches: seq<seq<seq<byte>>>)
    requires Inv(s)
    ensures
      var (s', out) := Read(s, maxLen, batches);
      var given := if out.Ok? && out.value.Some? then |out.value.value| else 0;
      && s'.playback == s.playback + given
      && (s.eof || |s.buffered| >= maxLen ==> out.Ok? && given + |s'.buffered| == |s.buffered|)
  {
    FillKeeps(s, ReadGoal(s, maxLen), batches);
  }

  /** How much a successful read gives and how much it leaves, for replies no longer than
      requested: as much as was asked for, unless neither the buffer held it nor the high
      watermark or the rest of the file allows it; and it fetches only when the buffer
      holds less than was asked for, then up to the low watermark at least. */
  lemma {:induction false} ReadAmount(s: Stream, maxLen: nat, batches: seq<seq<seq<byte>>>)
    requires Inv(s) && WithinHigh(s) && maxLen > 0 && Read(s, maxLen, batches).1.Ok?
    requires EachBatch(s, ReadGoal(s, maxLen), batches, NoLongerReply())
    ensures
      var (s', out) := Read(s, maxLen, batches);
      var given := if out.value.Some? then |out.value.value| else 0;
      var rest := Monus(s.size, s.playback);
      && given == Min(maxLen, Max(|s.buffered|, Min(s.options.high, rest)))
      && given + |s'.buffered|
         == (if |s.buffered| < maxLen
             then Max(|s.buffered|, Min(Min(Max(maxLen, s.options.low), s.options.high), rest))
             else |s.buffered|)
  {
    if ReadFills(s, maxLen) {
      FillLevel(s, ReadGoal(s, maxLen), batches);
      FillKeeps(s, ReadGoal(s, maxLen), batches);
    }
  }

  /** When a prefill happens and the level it reaches, for replies no longer than requested:
      short of the end of the file, a buffer at or below the low watermark is filled to the
      high one, or to the end of the file; any other is left alone. */
  lemma {:induction false} PrefillLevel(s: Stream, batches: seq<seq<seq<byte>>>)
    requires Inv(s)
    ensures
      s.eof || |s.buffered| > s.options.low ==> Prefill(s, batches) == (s, true)
    ensures
      !s.eof && |s.buffered| <= s.options.low && Prefill(s, batches).1
      && EachBatch(s, s.options.high, batches, NoLongerReply()) ==>
        |Prefill(s, batches).0.buffered| == Max(|s.buffered|, Min(s.options.high, Monus(s.size, s.playback)))
  {
    if ShouldPrefill(s) && Prefill(s, batches).1 && EachBatch(s, s.options.high, batches, NoLongerReply()) {
      FillLevel(s, s.options.high, batches);
    }
  }

  // ----- Runs -----

  datatype Action =
    | DoSeek(pos: SeekFrom)
    | DoFill(goal: nat, batches: seq<seq<seq<byte>>>)
    | DoPrefill(batches: seq<seq<seq<byte>>>)
    | DoRead(maxLen: nat, batches: seq<seq<seq<byte>>>)

  /** The stream, where the player last sought to, and what it has been given since. */
  datatype Session = Session(stream: Stream, start: nat, heard: seq<byte>)

  function Step(t: Session, a: Action): (r: Session)
    requires ValidOptions(t.stream.options)
    ensures r.stream.options == t.stream.options
  {
    match a
    case DoSeek(pos) =>
      var moved := Seek(t.stream, pos);
      if moved.Ok? then Session(moved.value, moved.value.playback, []) else t
    case DoFill(goal, batches) => t.(stream := Fill(t.stream, goal, batches).0)
    case DoPrefill(batches) => t.(stream := Prefill(t.stream, batches).0)
    case DoRead(maxLen, batches) =>
      var (s', out) := Read(t.stream, maxLen, batches);
      t.(stream := s', heard := if out.Ok? && out.value.Some? then t.heard + out.value.value else t.heard)
  }

  /** Every batch an action receives has property `p`. */
  ghost predicate StepReplies(t: Session, a: Action, p: (seq<Request>, seq<seq<byte>>) -> bool)
    requires ValidOptions(t.stream.options)
  {
    match a
    case DoSeek(_) => true
    case DoFill(goal, batches) => EachBatch(t.stream, goal, batches, p)
    case DoPrefill(batches) => EachBatch(t.stream, t.stream.options.high, batches, p)
    case DoRead(maxLen, batches) => EachBatch(t.stream, ReadGoal(t.stream, maxLen), batches, p)
  }

  function Run(t: Session, actions: seq<Action>): Session
    requires ValidOptions(t.stream.options)
    decreases |actions|
  {
    if actions == [] then t else Run(Step(t, actions[0]), actions[1..])
  }

  lemma {:induction false} RunNothing(t: Session)
    requires ValidOptions(t.stream.options)
    ensures Run(t, []) == t
  {
  }

  lemma {:induction false} RunOneMore(t: Session, actions: seq<Action>, a: Action)
    requires ValidOptions(t.stream.options)
    ensures Run(t, actions).stream.options == t.stream.options
    ensures Run(t, actions + [a]) == Step(Run(t, actions), a)
    decreases |actions|
  {
    if actions == [] {
      assert (actions + [a])[1..] == [];
    } else {
      assert (actions + [a])[0] == actions[0] && (actions + [a])[1..] == actions[1..] + [a];
      RunOneMore(Step(t, actions[0]), actions[1..], a);
    }
  }

  /** A fill to nothing does nothing, as a media stream without initial buffering does. */
  lemma {:induction false} FillNothing(t: Session)
    requires ValidOptions(t.stream.options)
    ensures forall batches :: Step(t, DoFill(0, batches)) == t
  {
    assert Plan(t.stream, 0, t.stream.options.depth) == [];
  }

  ghost predicate RunReplies(t: Session, actions: seq<Action>, p: (seq<Request>, seq<seq<byte>>) -> bool)
    requires ValidOptions(t.stream.options)
    decreases |actions|
  {
    actions == []
    || (&& StepReplies(t, actions[0], p)
        && RunReplies(Step(t, actions[0]), actions[1..], p))
  }

  /** The player has been given exactly the file's bytes from where it sought to
      up to the playback position, and the buffer holds the bytes that follow. */
  ghost predicate Faithful(file: seq<byte>, t: Session) {
    && Fidelity(file, t.stream)
    && t.start <= t.stream.playback
    && (if t.stream.playback <= |file| then t.heard == file[t.start..t.stream.playback]
        else t.start == t.stream.playback && t.heard == [])
  }

  lemma {:induction false} FillForKeeps(s: Stream, maxLen: nat, batches: seq<seq<seq<byte>>>)
    requires Inv(s)
    ensures
      var s' := FillFor(s, maxLen, batches).0;
      Inv(s') && s'.options == s.options && s'.size == s.size
  {
    FillKeeps(s, ReadGoal(s, maxLen), batches);
  }

  lemma {:induction false} FillForWithinHigh(s: Stream, maxLen: nat, batches: seq<seq<seq<byte>>>)
    requires Inv(s) && WithinHigh(s) && EachBatch(s, ReadGoal(s, maxLen), batches, NoLongerReply())
    ensures WithinHigh(FillFor(s, maxLen, batches).0)
  {
    FillForKeeps(s, maxLen, batches);
    FillBound(s, ReadGoal(s, maxLen), batches);
  }

  lemma {:induction false} StepKeeps(t: Session, a: Action)
    requires Inv(t.stream)
    ensures Inv(Step(t, a).stream)
    ensures Step(t, a).stream.options == t.stream.options && Step(t, a).stream.size == t.stream.size
  {
    match a
    case DoSeek(_) =>
    case DoFill(goal, batches) => FillKeeps(t.stream, goal, batches);
    case DoPrefill(batches) => FillKeeps(t.stream, t.stream.options.high, batches);
    case DoRead(maxLen, batches) => FillForKeeps(t.stream, maxLen, batches);
  }

  lemma {:induction false} StepWithinHigh(t: Session, a: Action)
    requires Inv(t.stream) && WithinHigh(t.stream) && StepReplies(t, a, NoLongerReply())
    ensures WithinHigh(Step(t, a).stream)
  {
    StepKeeps(t, a);
    match a
    case DoSeek(_) =>
    case DoFill(goal, batches) => FillBound(t.stream, goal, batches);
    case DoPrefill(batches) => FillBound(t.stream, t.stream.options.high, batches);
    case DoRead(maxLen, batches) =>
      FillForWithinHigh(t.stream, maxLen, batches);
  }

  lemma {:induction false} Slices(file: seq<byte>, a: nat, b: nat, c: nat, d: nat)
    requires a <= b <= c <= d <= |file|
    ensures file[b..d][..c - b] == file[b..c] && file[b..d][c - b..] == file[c..d]
    ensures file[a..b] + file[b..c] == file[a..c]
  {
  }

  /** Popping moves the front of the buffer to what the player has heard. */
  lemma {:induction false} PopFaithful(file: seq<byte>, t: Session, maxLen: nat)
    requires Inv(t.stream) && Faithful(file, t)
    ensures
      var (s', out) := Pop(t.stream, maxLen);
      && Inv(s')
      && Faithful(file, t.(stream := s', heard := if out.Some? then t.heard + out.value else t.heard))
  {
    var s := t.stream;
    var n := Min(maxLen, |s.buffered|);
    if n > 0 {
      Slices(file, t.start, s.playback, s.playback + n, s.source);
    }
  }

  lemma {:induction false} FillStepFaithful(file: seq<byte>, t: Session, goal: nat, batches: seq<seq<seq<byte>>>)
    requires Inv(t.stream) && Faithful(file, t) && EachBatch(t.stream, goal, batches, TrueReply(file))
    ensures
      var s' := Fill(t.stream, goal, batches).0;
      Inv(s') && Faithful(file, t.(stream := s'))
  {
    FillKeeps(t.stream, goal, batches);
    FillFaithful(file, t.stream, goal, batches);
  }

  lemma {:induction false} FillForFaithful(file: seq<byte>, t: Session, maxLen: nat, batches: seq<seq<seq<byte>>>)
    requires Inv(t.stream) && Faithful(file, t)
    requires EachBatch(t.stream, ReadGoal(t.stream, maxLen), batches, TrueReply(file))
    ensures
      var s' := FillFor(t.stream, maxLen, batches).0;
      Inv(s') && Faithful(file, t.(stream := s'))
  {
    FillStepFaithful(file, t, ReadGoal(t.stream, maxLen), batches);
  }

  lemma {:induction false} ReadFaithful(file: seq<byte>, t: Session, maxLen: nat, batches: seq<seq<seq<byte>>>)
    requires Inv(t.stream) && Faithful(file, t)
    requires EachBatch(t.stream, ReadGoal(t.stream, maxLen), batches, TrueReply(file))
    ensures Faithful(file, Step(t, DoRead(maxLen, batches)))
  {
    FillForFaithful(file, t, maxLen, batches);
    PopFaithful(file, t.(stream := FillFor(t.stream, maxLen, batches).0), maxLen);
  }

  lemma {:induction false} StepFaithful(file: seq<byte>, t: Session, a: Action)
    requires Inv(t.stream) && Faithful(file, t) && StepReplies(t, a, TrueReply(file))
    ensures Faithful(file, Step(t, a))
  {
    match a
    case DoSeek(_) =>
    case DoFill(goal, batches) => FillStepFaithful(file, t, goal, batches);
    case DoPrefill(batches) => FillStepFaithful(file, t, t.stream.options.high, batches);
    case DoRead(maxLen, batches) => ReadFaithful(file, t, maxLen, batches);
  }

  /** Every run, whatever the server sends, keeps the positions consistent. */
  lemma {:induction false} RunKeeps(t: Session, actions: seq<Action>)
    requires Inv(t.stream)
    ensures Inv(Run(t, actions).stream)
    decreases |actions|
  {
    if actions != [] {
      StepKeeps(t, actions[0]);
      RunKeeps(Step(t, actions[0]), actions[1..]);
    }
  }

  /** Every run with replies no longer than requested stays within the high watermark. */
  lemma {:induction false} RunWithinHigh(t: Session, actions: seq<Action>)
    requires Inv(t.stream) && WithinHigh(t.stream) && RunReplies(t, actions, NoLongerReply())
    ensures WithinHigh(Run(t, actions).stream)
    ensures |Run(t, actions).stream.buffered| <= t.stream.options.high <= t.stream.options.capacity
    decreases |actions|
  {
    if actions != [] {
      StepKeeps(t, actions[0]);
      StepWithinHigh(t, actions[0]);
      RunWithinHigh(Step(t, actions[0]), actions[1..]);
    }
  }

  /** The headline: over every run of seeks, fills, prefills and reads, failed and
      abandoned calls included, the player is given exactly the file's bytes. */
  lemma {:induction false} RunFaithful(file: seq<byte>, t: Session, actions: seq<Action>)
    requires Inv(t.stream) && Faithful(file, t) && RunReplies(t, actions, TrueReply(file))
    ensures Faithful(file, Run(t, actions))
    decreases |actions|
  {
    if actions != [] {
      StepKeeps(t, actions[0]);
      StepFaithful(file, t, actions[0]);
      RunFaithful(file, Step(t, actions[0]), actions[1..]);
    }
  }

  /** A fresh stream starts every such run. */
  lemma {:induction false} FreshStarts(options: Options, file: seq<byte>)
    requires ValidOptions(options) && |file| < U64_LIMIT
    ensures
      var t := Session(Fresh(options, |file|), 0, []);
      Inv(t.stream) && WithinHigh(t.stream) && Faithful(file, t)
  {
  }
}
