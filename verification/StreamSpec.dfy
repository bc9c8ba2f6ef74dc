/** What the streaming worker does, as functions on values: planning a batch of
    reads, pushing replies, seeking, filling and reading. The classes in
    Worker.dfy are proved to compute exactly these functions. */
module StreamSpec {
  import opened Base

  const SMB_LEGACY_READ_MAX: nat := 65534

  datatype Options = Options(capacity: nat, chunkSize: nat, low: nat, high: nat, depth: nat)

  /** The checks of `validate`, stream options and worker options together. */
  predicate ValidOptions(o: Options) {
    && o.chunkSize <= 1024 * 1024 && o.capacity != 0 && o.chunkSize != 0
    && o.high != 0 && o.low <= o.high <= o.capacity
    && o.depth != 0 && o.depth <= 16
  }

  function EffectiveChunk(o: Options): nat { Min(o.chunkSize, SMB_LEGACY_READ_MAX) }

  datatype Request = Request(offset: nat, len: nat)

  datatype SeekFrom = Start(offset: nat) | End(delta: int) | Current(delta: int)

  datatype Stream = Stream(options: Options, buffered: seq<byte>, playback: nat, source: nat, size: nat, eof: bool)

  /** What every operation keeps, whatever the server sends. The last line says
      that no position ever leaves 64 bits. */
  ghost predicate Inv(s: Stream) {
    && ValidOptions(s.options)
    && s.playback + |s.buffered| == s.source
    && (s.eof <==> s.source >= s.size)
    && (s.source > s.size ==> s.buffered == [])
    && s.size < U64_LIMIT && s.source < U64_LIMIT
  }

  /** Memory stays within the high watermark. */
  predicate WithinHigh(s: Stream) { |s.buffered| <= s.options.high }

  /** The buffer holds the file's bytes between the two positions. */
  ghost predicate Fidelity(file: seq<byte>, s: Stream) {
    && s.size == |file|
    && (s.source <= |file| ==> s.playback <= s.source && s.buffered == file[s.playback..s.source])
  }

  function Fresh(options: Options, size: nat): Stream {
    Stream(options, [], 0, 0, size, size == 0)
  }

  // ----- Planning a batch of reads -----

  function PlanFrom(goal: nat, buffered: nat, position: nat, size: nat, chunk: nat, max: nat): seq<Request>
    requires chunk > 0
    decreases max
  {
    if max == 0 || buffered >= goal || position >= size then []
    else
      var len := Min(Min(goal - buffered, chunk), size - position);
      [Request(position, len)] + PlanFrom(goal, buffered + len, position + len, size, chunk, max - 1)
  }

  lemma {:induction false} PlanFromStep(goal: nat, buffered: nat, position: nat, size: nat, chunk: nat, max: nat)
    requires chunk > 0 && max > 0 && buffered < goal && position < size
    ensures
      var len := Min(Min(goal - buffered, chunk), size - position);
      PlanFrom(goal, buffered, position, size, chunk, max)
      == [Request(position, len)] + PlanFrom(goal, buffered + len, position + len, size, chunk, max - 1)
  {
  }

  lemma {:induction false} PlanFromEnds(goal: nat, buffered: nat, position: nat, size: nat, chunk: nat, max: nat)
    requires chunk > 0 && (max == 0 || buffered >= goal || position >= size)
    ensures PlanFrom(goal, buffered, position, size, chunk, max) == []
  {
  }

  function Plan(s: Stream, goal: nat, max: nat): seq<Request>
    requires ValidOptions(s.options)
  {
    if max == 0 || s.eof || s.source >= s.size then []
    else PlanFrom(Min(goal, s.options.high), |s.buffered|, s.source, s.size, EffectiveChunk(s.options), max)
  }

  function TotalLen(reqs: seq<Request>): nat {
    if reqs == [] then 0 else reqs[0].len + TotalLen(reqs[1..])
  }

  /** The bytes still wanted: what the goal lacks, but no more than the file has. */
  function Deficit(s: Stream, goal: nat): nat {
    if s.eof then 0 else Min(Monus(Min(goal, s.options.high), |s.buffered|), Monus(s.size, s.source))
  }

  lemma {:induction false} OneMore(n: nat, chunk: nat)
    ensures (n + 1) * chunk == n * chunk + chunk && n * chunk >= 0
  {
  }

  lemma {:induction false} PlanFromTotal(goal: nat, buffered: nat, position: nat, size: nat, chunk: nat, max: nat)
    requires chunk > 0
    ensures
      var reqs := PlanFrom(goal, buffered, position, size, chunk, max);
      && TotalLen(reqs) == Min(Min(Monus(goal, buffered), Monus(size, position)), max * chunk)
      && |reqs| <= max
      && (reqs == [] <==> max == 0 || buffered >= goal || position >= size)
    decreases max
  {
    hide PlanFrom;
    if max == 0 || buffered >= goal || position >= size {
      OneMore(max, chunk);
      PlanFromEnds(goal, buffered, position, size, chunk, max);
    } else {
      OneMore(max - 1, chunk);
      PlanFromStep(goal, buffered, position, size, chunk, max);
      var len := Min(Min(goal - buffered, chunk), size - position);
      PlanFromTotal(goal, buffered + len, position + len, size, chunk, max - 1);
      assert PlanFrom(goal, buffered, position, size, chunk, max)[1..]
          == PlanFrom(goal, buffered + len, position + len, size, chunk, max - 1);
    }
  }

  lemma {:induction false} PlanFromAt(goal: nat, buffered: nat, position: nat, size: nat, chunk: nat, max: nat, i: nat)
    requires chunk > 0 && i < |PlanFrom(goal, buffered, position, size, chunk, max)|
    ensures
      var reqs := PlanFrom(goal, buffered, position, size, chunk, max);
      && reqs[i].offset == position + i * chunk
      && 1 <= reqs[i].len <= chunk
      && (i < |reqs| - 1 ==> reqs[i].len == chunk)
      && reqs[i].offset + reqs[i].len <= size
    decreases max
  {
    var len := Min(Min(goal - buffered, chunk), size - position);
    var rest := PlanFrom(goal, buffered + len, position + len, size, chunk, max - 1);
    if i > 0 {
      assert len == chunk;
      PlanFromAt(goal, buffered + len, position + len, size, chunk, max - 1, i - 1);
      OneMore(i - 1, chunk);
    }
  }

  /** Planning in closed form: request i starts i chunks after the source
      position, every request but the last is a whole chunk, none passes the end
      of the file, and together they ask for the deficit, capped by `max` chunks. */
  lemma {:induction false} PlanClosedForm(s: Stream, goal: nat, max: nat)
    requires ValidOptions(s.options)
    ensures
      var chunk := Min(s.options.chunkSize, 65534);
      var reqs := Plan(s, goal, max);
      && TotalLen(reqs) == Min(Deficit(s, goal), max * chunk)
      && |reqs| <= max
      && (reqs == [] <==> max == 0 || Deficit(s, goal) == 0)
      && (forall i :: 0 <= i < |reqs| ==>
            && reqs[i].offset == s.source + i * chunk
            && 1 <= reqs[i].len <= chunk
            && (i < |reqs| - 1 ==> reqs[i].len == chunk)
            && reqs[i].offset + reqs[i].len <= s.size)
  {
    var chunk := EffectiveChunk(s.options);
    OneMore(max, chunk);
    if !(max == 0 || s.eof || s.source >= s.size) {
      PlanFromTotal(Min(goal, s.options.high), |s.buffered|, s.source, s.size, chunk, max);
      forall i | 0 <= i < |Plan(s, goal, max)| {
        PlanFromAt(Min(goal, s.options.high), |s.buffered|, s.source, s.size, chunk, max, i);
      }
    }
  }

  lemma {:induction false} PlanBounds(s: Stream, goal: nat, max: nat)
    requires ValidOptions(s.options)
    ensures |Plan(s, goal, max)| <= max
    ensures forall i :: 0 <= i < |Plan(s, goal, max)| ==> 1 <= Plan(s, goal, max)[i].len <= 65534
    ensures Plan(s, goal, max) != [] ==> !s.eof && s.source < s.size
  {
    PlanClosedForm(s, goal, max);
  }

  /** Each request starts where the one before it ends, and none passes the end of the file. */
  predicate Contiguous(reqs: seq<Request>, position: nat, size: nat) {
    reqs == [] || (&& reqs[0].offset == position
                   && 1 <= reqs[0].len
                   && position + reqs[0].len <= size
                   && Contiguous(reqs[1..], position + reqs[0].len, size))
  }

  lemma {:induction false} PlanFromContiguous(goal: nat, buffered: nat, position: nat, size: nat, chunk: nat, max: nat)
    requires chunk > 0
    ensures Contiguous(PlanFrom(goal, buffered, position, size, chunk, max), position, size)
    ensures TotalLen(PlanFrom(goal, buffered, position, size, chunk, max)) <= Monus(goal, buffered)
    decreases max
  {
    if !(max == 0 || buffered >= goal || position >= size) {
      var len := Min(Min(goal - buffered, chunk), size - position);
      PlanFromContiguous(goal, buffered + len, position + len, size, chunk, max - 1);
      assert PlanFrom(goal, buffered, position, size, chunk, max)[1..]
          == PlanFrom(goal, buffered + len, position + len, size, chunk, max - 1);
    }
  }

  lemma {:induction false} PlanContiguous(s: Stream, goal: nat, max: nat)
    requires ValidOptions(s.options)
    ensures Contiguous(Plan(s, goal, max), s.source, s.size)
    ensures TotalLen(Plan(s, goal, max)) <= Monus(Min(goal, s.options.high), |s.buffered|)
  {
    PlanFromContiguous(Min(goal, s.options.high), |s.buffered|, s.source, s.size, EffectiveChunk(s.options), max);
  }

  // ----- Pushing replies -----

  function PushChunk(s: Stream, chunk: seq<byte>): Result<Stream> {
    if chunk == [] then
      if s.source < s.size then Err(Internal) else Ok(s.(eof := true))
    else if |chunk| > Monus(s.size, s.source) then Err(Internal)
    else
      var source := s.source + |chunk|;
      Ok(s.(source := source, buffered := s.buffered + chunk, eof := s.eof || source >= s.size))
  }

  /** The loop over a received batch: it stops at the first error and at the end of the file. */
  function PushBatch(s: Stream, chunks: seq<seq<byte>>): (r: (Stream, bool))
    ensures r.0.options == s.options
    decreases |chunks|
  {
    if chunks == [] then (s, true)
    else
      match PushChunk(s, chunks[0])
      case Err(_) => (s, false)
      case Ok(s') => if s'.eof then (s', true) else PushBatch(s', chunks[1..])
  }

  predicate NoLonger(reqs: seq<Request>, chunks: seq<seq<byte>>) {
    |chunks| == |reqs| && forall i :: 0 <= i < |reqs| ==> |chunks[i]| <= reqs[i].len
  }

  predicate NonEmpty(chunks: seq<seq<byte>>) {
    forall i :: 0 <= i < |chunks| ==> chunks[i] != []
  }

  /** Every reply is the file's bytes at the requested offset. */
  predicate TrueBytes(file: seq<byte>, reqs: seq<Request>, chunks: seq<seq<byte>>) {
    && |chunks| == |reqs|
    && forall i :: 0 <= i < |reqs| ==>
         && reqs[i].offset + |chunks[i]| <= |file|
         && chunks[i] == file[reqs[i].offset..reqs[i].offset + |chunks[i]|]
  }

  predicate FullButLast(reqs: seq<Request>, chunks: seq<seq<byte>>) {
    |chunks| == |reqs| && forall i :: 0 <= i < |reqs| - 1 ==> |chunks[i]| == reqs[i].len
  }

  /** Whatever is received, the positions stay consistent, and nothing else moves. */
  lemma {:induction false} PushBatchKeeps(s: Stream, chunks: seq<seq<byte>>)
    requires Inv(s)
    ensures
      var s' := PushBatch(s, chunks).0;
      && Inv(s')
      && s'.playback == s.playback && s'.size == s.size && s'.options == s.options
      && s.source <= s'.source
      && s.buffered <= s'.buffered
      && (s.source <= s.size ==> s'.source <= s.size)
    decreases |chunks|
  {
    if chunks != [] && PushChunk(s, chunks[0]).Ok? && !PushChunk(s, chunks[0]).value.eof {
      PushBatchKeeps(PushChunk(s, chunks[0]).value, chunks[1..]);
    }
  }

  lemma {:induction false} PushBatchBound(s: Stream, reqs: seq<Request>, chunks: seq<seq<byte>>)
    requires NoLonger(reqs, chunks)
    ensures |PushBatch(s, chunks).0.buffered| <= |s.buffered| + TotalLen(reqs)
    decreases |chunks|
  {
    if chunks != [] && PushChunk(s, chunks[0]).Ok? && !PushChunk(s, chunks[0]).value.eof {
      PushBatchBound(PushChunk(s, chunks[0]).value, reqs[1..], chunks[1..]);
    }
  }

  /** A batch that starts before the end of the file makes progress or reports an error. */
  lemma {:induction false} PushBatchProgress(s: Stream, chunks: seq<seq<byte>>)
    requires Inv(s) && s.source < s.size && chunks != [] && PushBatch(s, chunks).1
    ensures s.source < PushBatch(s, chunks).0.source <= s.size
  {
    var s' := PushChunk(s, chunks[0]).value;
    if !s'.eof {
      PushBatchKeeps(s', chunks[1..]);
    }
  }

  /** True bytes at full length, the last reply excepted, keep the buffer the file's. */
  lemma {:induction false} PushBatchFaithful(file: seq<byte>, s: Stream, reqs: seq<Request>, chunks: seq<seq<byte>>)
    requires Inv(s) && Fidelity(file, s) && s.source <= s.size
    requires Contiguous(reqs, s.source, s.size)
    requires TrueBytes(file, reqs, chunks) && FullButLast(reqs, chunks)
    ensures Fidelity(file, PushBatch(s, chunks).0)
    decreases |chunks|
  {
    if chunks != [] && PushChunk(s, chunks[0]).Ok? {
      var s' := PushChunk(s, chunks[0]).value;
      assert s'.source <= s.size ==>
          file[s.playback..s.source] + file[s.source..s'.source] == file[s.playback..s'.source];
      if !s'.eof && |chunks| > 1 {
        PushBatchFaithful(file, s', reqs[1..], chunks[1..]);
      }
    }
  }

  // ----- Short replies inside a batch -----

  /** Replies of at most the requested length are all pushed, one after the other,
      even where earlier short ones make the source position lag. */
  lemma {:induction false} PushBatchAll(s: Stream, reqs: seq<Request>, position: nat, chunks: seq<seq<byte>>)
    requires Inv(s) && !s.eof && s.source <= position && Contiguous(reqs, position, s.size)
    requires NoLonger(reqs, chunks) && NonEmpty(chunks)
    ensures PushBatch(s, chunks).1
    ensures PushBatch(s, chunks).0.buffered == s.buffered + Flatten(chunks)
    decreases |chunks|
  {
    if chunks != [] {
      var s' := PushChunk(s, chunks[0]).value;
      assert s.buffered + chunks[0] + Flatten(chunks[1..]) == s.buffered + Flatten(chunks);
      if s'.eof {
        assert position + reqs[0].len == s.size;
        assert reqs[1..] == [];
      } else {
        PushBatchAll(s', reqs[1..], position + reqs[0].len, chunks[1..]);
      }
    }
  }

  lemma {:induction false} FlattenFirstOf(chunks: seq<seq<byte>>, k: nat)
    requires k < |chunks| && chunks[k] != []
    ensures |Flatten(chunks[..k])| < |Flatten(chunks)|
    ensures Flatten(chunks)[|Flatten(chunks[..k])|] == chunks[k][0]
  {
    assert chunks == chunks[..k] + ([chunks[k]] + chunks[k + 1..]);
    FlattenAppend(chunks[..k], [chunks[k]] + chunks[k + 1..]);
  }

  lemma {:induction false} ContiguousAt(reqs: seq<Request>, position: nat, size: nat, k: nat)
    requires Contiguous(reqs, position, size) && k < |reqs|
    ensures reqs[k].offset == position + TotalLen(reqs[..k])
    ensures 1 <= reqs[k].len && reqs[k].offset + reqs[k].len <= size
    decreases k
  {
    if k > 0 {
      ContiguousAt(reqs[1..], position + reqs[0].len, size, k - 1);
      assert reqs[..k][1..] == reqs[1..][..k - 1];
    }
  }

  lemma {:induction false} ShortBefore(reqs: seq<Request>, chunks: seq<seq<byte>>, k: nat)
    requires NoLonger(reqs, chunks)
    ensures |Flatten(chunks)| <= TotalLen(reqs)
    ensures k < |reqs| && |chunks[k]| < reqs[k].len ==> |Flatten(chunks)| < TotalLen(reqs)
    decreases |reqs|
  {
    if reqs != [] {
      if k > 0 && k < |reqs| {
        ShortBefore(reqs[1..], chunks[1..], k - 1);
      } else {
        ShortBefore(reqs[1..], chunks[1..], |reqs|);
      }
    }
  }

  /** The reply lengths of a batch, and the replies a given file makes of them. */
  function Cut(file: seq<byte>, reqs: seq<Request>, lens: seq<nat>): seq<seq<byte>>
    requires |lens| == |reqs|
    requires forall i :: 0 <= i < |reqs| ==> reqs[i].offset + lens[i] <= |file|
  {
    seq(|reqs|, i requires 0 <= i < |reqs| => file[reqs[i].offset..reqs[i].offset + lens[i]])
  }

  /** No reply is longer than requested; any may be empty. */
  predicate ReplyLengths(reqs: seq<Request>, lens: seq<nat>) {
    |lens| == |reqs| && forall i :: 0 <= i < |reqs| ==> lens[i] <= reqs[i].len
  }

  predicate NoneEmpty(lens: seq<nat>) {
    forall i :: 0 <= i < |lens| ==> lens[i] > 0
  }

  /** A file that agrees with the buffer and carries a mark at one place. */
  function Marked(s: Stream, mark: nat): (file: seq<byte>)
    requires s.playback + |s.buffered| == s.source <= s.size
    ensures |file| == s.size && Fidelity(file, s)
  {
    var file := seq(s.size, i requires 0 <= i < s.size =>
      if s.playback <= i < s.source then s.buffered[i - s.playback] else if i == mark then 1 else 0);
    assert file[s.playback..s.source] == s.buffered;
    file
  }

  predicate Answerable(file: seq<byte>, reqs: seq<Request>, lens: seq<nat>) {
    |lens| == |reqs| && forall i :: 0 <= i < |reqs| ==> reqs[i].offset + lens[i] <= |file|
  }

  /** Answering the batch from this file, with these lengths, leaves a faithful buffer faithful. */
  ghost predicate BatchFaithful(file: seq<byte>, s: Stream, reqs: seq<Request>, lens: seq<nat>) {
    Fidelity(file, s) && Answerable(file, reqs, lens) ==> Fidelity(file, PushBatch(s, Cut(file, reqs, lens)).0)
  }

  /** After a short reply, the next reply's bytes land before their own offset. */
  lemma {:induction false} ShiftedChunk(s: Stream, reqs: seq<Request>, chunks: seq<seq<byte>>, k: nat) returns (at: nat)
    requires Inv(s) && !s.eof && Contiguous(reqs, s.source, s.size)
    requires NoLonger(reqs, chunks) && NonEmpty(chunks)
    requires k + 1 < |reqs| && |chunks[k]| < reqs[k].len
    ensures
      var s' := PushBatch(s, chunks).0;
      && |s.buffered| <= at < |s'.buffered|
      && s'.buffered[at] == chunks[k + 1][0]
      && s.playback + at < reqs[k + 1].offset
  {
    PushBatchAll(s, reqs, s.source, chunks);
    FlattenFirstOf(chunks, k + 1);
    ContiguousAt(reqs, s.source, s.size, k + 1);
    ShortBefore(reqs[..k + 1], chunks[..k + 1], k);
    at := |s.buffered| + |Flatten(chunks[..k + 1])|;
  }

  lemma {:induction false} ContiguousWithin(reqs: seq<Request>, position: nat, size: nat)
    requires Contiguous(reqs, position, size)
    ensures forall i :: 0 <= i < |reqs| ==> position <= reqs[i].offset && reqs[i].offset + reqs[i].len <= size
  {
    forall i | 0 <= i < |reqs| ensures position <= reqs[i].offset && reqs[i].offset + reqs[i].len <= size {
      ContiguousAt(reqs, position, size, i);
    }
  }

  lemma {:induction false} FidelityAt(file: seq<byte>, s: Stream, at: nat)
    requires Fidelity(file, s) && s.source <= |file| && at < |s.buffered|
    ensures s.playback + at < |file| && s.buffered[at] == file[s.playback + at]
  {
  }

  lemma {:induction false} CutLengths(file: seq<byte>, reqs: seq<Request>, lens: seq<nat>)
    requires ReplyLengths(reqs, lens) && NoneEmpty(lens) && Answerable(file, reqs, lens)
    ensures
      var chunks := Cut(file, reqs, lens);
      NoLonger(reqs, chunks) && NonEmpty(chunks)
  {
  }

  lemma {:induction false} CutTrue(file: seq<byte>, reqs: seq<Request>, lens: seq<nat>)
    requires Answerable(file, reqs, lens)
    requires forall i :: 0 <= i < |reqs| - 1 ==> lens[i] == reqs[i].len
    ensures
      var chunks := Cut(file, reqs, lens);
      TrueBytes(file, reqs, chunks) && FullButLast(reqs, chunks)
  {
  }

  lemma {:induction false} MarkShows(file: seq<byte>, s: Stream, reqs: seq<Request>, lens: seq<nat>, k: nat)
    requires Inv(s) && !s.eof && Contiguous(reqs, s.source, s.size) && ReplyLengths(reqs, lens) && NoneEmpty(lens)
    requires k + 1 < |reqs| && lens[k] < reqs[k].len
    requires |file| == s.size && Answerable(file, reqs, lens)
    requires forall i :: s.source <= i < |file| ==> file[i] == if i == reqs[k + 1].offset then 1 else 0
    ensures !Fidelity(file, PushBatch(s, Cut(file, reqs, lens)).0)
  {
    var chunks := Cut(file, reqs, lens);
    CutLengths(file, reqs, lens);
    ContiguousAt(reqs, s.source, s.size, k + 1);
    var at := ShiftedChunk(s, reqs, chunks, k);
    PushBatchKeeps(s, chunks);
    if Fidelity(file, PushBatch(s, chunks).0) {
      FidelityAt(file, PushBatch(s, chunks).0, at);
    }
  }

  /** A short reply inside a batch misplaces bytes: the file marked at the next
      request's offset shows it. */
  lemma {:induction false} ShortReplyMisplaces(s: Stream, reqs: seq<Request>, lens: seq<nat>, k: nat)
    requires Inv(s) && !s.eof && Contiguous(reqs, s.source, s.size) && ReplyLengths(reqs, lens) && NoneEmpty(lens)
    requires k + 1 < |reqs| && lens[k] < reqs[k].len
    ensures !BatchFaithful(Marked(s, reqs[k + 1].offset), s, reqs, lens)
  {
    ContiguousWithin(reqs, s.source, s.size);
    MarkShows(Marked(s, reqs[k + 1].offset), s, reqs, lens, k);
  }

  lemma {:induction false} FullRepliesFaithful(file: seq<byte>, s: Stream, reqs: seq<Request>, lens: seq<nat>)
    requires Inv(s) && !s.eof && Contiguous(reqs, s.source, s.size) && ReplyLengths(reqs, lens) && NoneEmpty(lens)
    requires forall i :: 0 <= i < |reqs| - 1 ==> lens[i] == reqs[i].len
    ensures BatchFaithful(file, s, reqs, lens)
  {
    if Fidelity(file, s) && Answerable(file, reqs, lens) {
      var chunks := Cut(file, reqs, lens);
      CutTrue(file, reqs, lens);
      PushBatchFaithful(file, s, reqs, chunks);
    }
  }

  lemma {:induction false} NonEmptyFaithfulIff(s: Stream, reqs: seq<Request>, lens: seq<nat>)
    requires Inv(s) && !s.eof && Contiguous(reqs, s.source, s.size) && ReplyLengths(reqs, lens) && NoneEmpty(lens)
    ensures (forall file :: BatchFaithful(file, s, reqs, lens))
            <==> (forall i :: 0 <= i < |reqs| - 1 ==> lens[i] == reqs[i].len)
  {
    if k :| 0 <= k < |reqs| - 1 && lens[k] != reqs[k].len {
      ShortReplyMisplaces(s, reqs, lens, k);
    } else {
      forall file ensures BatchFaithful(file, s, reqs, lens) {
        FullRepliesFaithful(file, s, reqs, lens);
      }
    }
  }

  // ----- An empty reply ends the batch -----

  /** How many replies come before the first empty one. */
  function Pushed(lens: seq<nat>): (n: nat)
    ensures n <= |lens|
    ensures NoneEmpty(lens[..n])
    ensures n < |lens| ==> lens[n] == 0
  {
    if lens == [] || lens[0] == 0 then 0
    else
      assert lens[..1 + Pushed(lens[1..])] == [lens[0]] + lens[1..][..Pushed(lens[1..])];
      1 + Pushed(lens[1..])
  }

  /** What is pushed of a batch is what comes before its first empty chunk. */
  lemma {:induction false} PushBatchUntil(s: Stream, chunks: seq<seq<byte>>, n: nat)
    requires n <= |chunks| && (n < |chunks| ==> chunks[n] == [])
    requires Inv(s)
    ensures PushBatch(s, chunks).0.(eof := true) == PushBatch(s, chunks[..n]).0.(eof := true)
    decreases |chunks|
  {
    if n > 0 && PushChunk(s, chunks[0]).Ok? && !PushChunk(s, chunks[0]).value.eof {
      assert chunks[..n][1..] == chunks[1..][..n - 1];
      PushBatchUntil(PushChunk(s, chunks[0]).value, chunks[1..], n - 1);
    }
  }

  lemma {:induction false} ContiguousPrefix(reqs: seq<Request>, position: nat, size: nat, n: nat)
    requires Contiguous(reqs, position, size) && n <= |reqs|
    ensures Contiguous(reqs[..n], position, size)
    decreases n
  {
    if n > 0 {
      ContiguousPrefix(reqs[1..], position + reqs[0].len, size, n - 1);
      assert reqs[..n][1..] == reqs[1..][..n - 1];
    }
  }

  lemma {:induction false} FaithfulUntil(file: seq<byte>, s: Stream, reqs: seq<Request>, lens: seq<nat>)
    requires Inv(s) && Contiguous(reqs, s.source, s.size) && ReplyLengths(reqs, lens)
    ensures
      var n := Pushed(lens);
      BatchFaithful(file, s, reqs, lens) <==> BatchFaithful(file, s, reqs[..n], lens[..n])
  {
    if Fidelity(file, s) {
      var n := Pushed(lens);
      ContiguousWithin(reqs, s.source, s.size);
      var chunks := Cut(file, reqs, lens);
      assert chunks[..n] == Cut(file, reqs[..n], lens[..n]);
      PushBatchUntil(s, chunks, n);
    }
  }

  /** The exact condition: a batch answered with replies of these lengths leaves the
      buffer faithful for every file if and only if, of the replies before the first
      empty one, every one but the last has its full length. */
  lemma {:induction false} BatchFaithfulIff(s: Stream, reqs: seq<Request>, lens: seq<nat>)
    requires Inv(s) && !s.eof && Contiguous(reqs, s.source, s.size) && ReplyLengths(reqs, lens)
    ensures (forall file :: BatchFaithful(file, s, reqs, lens))
            <==> (forall i :: 0 <= i < Pushed(lens) - 1 ==> lens[i] == reqs[i].len)
  {
    var n := Pushed(lens);
    ContiguousPrefix(reqs, s.source, s.size, n);
    NonEmptyFaithfulIff(s, reqs[..n], lens[..n]);
    forall file
      ensures BatchFaithful(file, s, reqs, lens) <==> BatchFaithful(file, s, reqs[..n], lens[..n])
    {
      FaithfulUntil(file, s, reqs, lens);
    }
    assert forall i :: 0 <= i < n ==> lens[..n][i] == lens[i] && reqs[..n][i] == reqs[i];
  }

  const EXAMPLE: Options := Options(8, 2, 0, 4, 2)

  lemma {:induction false} ExamplePlan()
    ensures
      var s := Fresh(EXAMPLE, 4);
      var reqs := [Request(0, 2), Request(2, 2)];
      Plan(s, 4, 2) == reqs && Contiguous(reqs, 0, 4)
  {
    PlanFromStep(4, 0, 0, 4, 2, 2);
    PlanFromStep(4, 2, 2, 4, 2, 1);
    PlanFromEnds(4, 4, 4, 4, 2, 0);
    assert [Request(0, 2), Request(2, 2)][1..] == [Request(2, 2)] && [Request(2, 2)][1..] == [];
  }

  lemma {:induction false} ExamplePushed()
    ensures
      var s := Fresh(EXAMPLE, 4);
      var chunks: seq<seq<byte>> := [[10], [12, 13]];
      && PushBatch(s, chunks).0.buffered == [10, 12, 13]
      && !Fidelity([10, 11, 12, 13], PushBatch(s, chunks).0)
  {
    var s := Fresh(EXAMPLE, 4);
    var chunks: seq<seq<byte>> := [[10], [12, 13]];
    var once := PushChunk(s, [10]).value;
    var last: seq<seq<byte>> := [[12, 13]];
    assert chunks[1..] == last;
    assert PushBatch(s, chunks) == PushBatch(once, last);
    assert PushBatch(once, last).0 == PushChunk(once, [12, 13]).value;
    assert [10, 11, 12, 13][0..3][1] == 11;
  }

  /** A stream that meets the failing half: two bytes asked for and one sent, with a
      second request behind. The file 10 11 12 13 is buffered as 10 12 13. */
  lemma {:induction false} ShortReplyExample()
    ensures
      var s := Fresh(EXAMPLE, 4);
      var reqs := [Request(0, 2), Request(2, 2)];
      var file := [10, 11, 12, 13];
      && Inv(s) && !s.eof && Fidelity(file, s)
      && Plan(s, 4, 2) == reqs && Contiguous(reqs, s.source, s.size) && ReplyLengths(reqs, [1, 2])
      && Answerable(file, reqs, [1, 2])
      && PushBatch(s, Cut(file, reqs, [1, 2])).0.buffered == [10, 12, 13]
      && !BatchFaithful(file, s, reqs, [1, 2])
  {
    hide Plan, Contiguous, PushBatch;
    ExamplePlan();
    ExamplePushed();
    var file := [10, 11, 12, 13];
    var chunks := Cut(file, [Request(0, 2), Request(2, 2)], [1, 2]);
    assert chunks[0] == file[0..1] == [10] && chunks[1] == file[2..4] == [12, 13];
    assert chunks == [[10], [12, 13]];
  }
}
