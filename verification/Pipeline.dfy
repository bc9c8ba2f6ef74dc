/** A batch of reads in flight together, against the same reads made one at a time. */
module Pipelining {
  import opened Base
  import opened Multiplex

  /** What a read hands back for a reply. */
  function ParseRead(reply: Reply): (r: Result<seq<byte>>)
    ensures r.Err? ==> r.error != Timeout && r.error != Duplicate && r.error != Internal
  {
    match reply
    case Data(bytes) => Ok(bytes)
    case Status => Err(ServerError)
    case Misc => Err(UnexpectedReply)
  }

  /** The outcome of some reads: the chunks or the first error, the frames handed over,
      what stays put aside, what stays on the wire, and how the counters advanced. */
  datatype Reads = Reads(result: Result<seq<seq<byte>>>, frames: seq<Frame>,
                         pending: map<nat, Frame>, rest: seq<Frame>, calls: nat, bytes: nat)

  function ReadOne(mid: nat, pending: map<nat, Frame>, arrivals: seq<Frame>): (r: Reads)
    ensures r.result.Ok? ==> |r.result.value| == 1 && |r.frames| == 1 && r.calls == 1 && r.bytes == |r.result.value[0]|
  {
    match Scan(mid, pending, arrivals)
    case Starved(p) => Reads(Err(Timeout), [], p, [], 0, 0)
    case Repeated(_, p, rest) => Reads(Err(Duplicate), [], p, rest, 0, 0)
    case Found(f, p, rest) =>
      match ParseRead(f.reply)
      case Ok(data) => Reads(Ok([data]), [f], p, rest, 1, |data|)
      case Err(e) => Reads(Err(e), [f], p, rest, 0, 0)
  }

  /** Some reads that succeeded, followed by others. */
  function Extend(a: Reads, b: Reads): Reads
    requires a.result.Ok?
  {
    Reads(if b.result.Ok? then Ok(a.result.value + b.result.value) else b.result,
          a.frames + b.frames, b.pending, b.rest, a.calls + b.calls, a.bytes + b.bytes)
  }

  /** The replies of a batch received in request order, up to the first error. */
  function ReadAll(mids: seq<nat>, pending: map<nat, Frame>, arrivals: seq<Frame>): Reads
    decreases |mids|
  {
    if mids == [] then Reads(Ok([]), [], pending, arrivals, 0, 0)
    else
      var one := ReadOne(mids[0], pending, arrivals);
      if one.result.Err? then one else Extend(one, ReadAll(mids[1..], one.pending, one.rest))
  }

  lemma {:induction false} ReadNothing(pending: map<nat, Frame>)
    ensures ReadAll([], pending, []) == Reads(Ok([]), [], pending, [], 0, 0)
  {
  }

  // ----- Receiving from a growing wire -----

  lemma {:induction false} ExtendTwice(a: Reads, b: Reads, c: Reads)
    requires a.result.Ok? && b.result.Ok?
    ensures Extend(a, Extend(b, c)) == Extend(Extend(a, b), c)
  {
    assert a.frames + (b.frames + c.frames) == (a.frames + b.frames) + c.frames;
    if c.result.Ok? {
      assert a.result.value + (b.result.value + c.result.value) == (a.result.value + b.result.value) + c.result.value;
    }
  }

  lemma {:induction false} ReadOneMore(mid: nat, pending: map<nat, Frame>, a: seq<Frame>, b: seq<Frame>)
    requires ReadOne(mid, pending, a).result != Err(Timeout)
    ensures ReadOne(mid, pending, a + b) == ReadOne(mid, pending, a).(rest := ReadOne(mid, pending, a).rest + b)
  {
    ScanMore(mid, pending, a, b);
  }

  /** Frames that arrive after the last one needed change nothing but what is left. */
  lemma {:induction false} ReadAllMore(mids: seq<nat>, pending: map<nat, Frame>, a: seq<Frame>, b: seq<Frame>)
    requires ReadAll(mids, pending, a).result != Err(Timeout)
    ensures ReadAll(mids, pending, a + b) == ReadAll(mids, pending, a).(rest := ReadAll(mids, pending, a).rest + b)
    decreases |mids|
  {
    hide ReadOne;
    if mids != [] {
      var one := ReadOne(mids[0], pending, a);
      ReadOneMore(mids[0], pending, a, b);
      if one.result.Ok? {
        ReadAllMore(mids[1..], one.pending, one.rest, b);
      }
    }
  }

  /** One more reply of a batch, after those received from the frames so far. */
  lemma {:induction false} ReadAllStep(mids: seq<nat>, i: nat, pending: map<nat, Frame>, a: seq<Frame>, b: seq<Frame>)
    requires i < |mids|
    requires ReadAll(mids[..i], pending, a).result.Ok? && ReadAll(mids[..i], pending, a).rest == []
    ensures
      var got := ReadAll(mids[..i], pending, a);
      var one := ReadOne(mids[i], got.pending, b);
      && ReadAll(mids[..i + 1], pending, a + b) == Extend(got, one)
      && (one.result.Err? ==> ReadAll(mids, pending, a + b) == Extend(got, one))
    decreases i
  {
    hide ReadOne;
    if i == 0 {
      assert a + b == b;
      var one := ReadOne(mids[0], pending, b);
      assert [] + one.frames == one.frames;
      assert one.result.Ok? ==> [] + one.result.value == one.result.value && one.result.value + [] == one.result.value;
      assert one.frames + [] == one.frames;
      assert mids[..1][1..] == [];
    } else {
      var one := ReadOne(mids[0], pending, a);
      assert mids[..i][1..] == mids[1..][..i - 1] && mids[..i + 1][1..] == mids[1..][..i];
      ReadOneMore(mids[0], pending, a, b);
      ReadAllStep(mids[1..], i - 1, one.pending, one.rest, b);
      var got := ReadAll(mids[1..][..i - 1], one.pending, one.rest);
      ExtendTwice(one, got, ReadOne(mids[i], got.pending, b));
    }
  }

  /** A batch that succeeds counts every read and every byte. */
  lemma {:induction false} ReadAllCounts(mids: seq<nat>, pending: map<nat, Frame>, arrivals: seq<Frame>)
    requires ReadAll(mids, pending, arrivals).result.Ok?
    ensures
      var got := ReadAll(mids, pending, arrivals);
      && got.calls == |mids| == |got.result.value| && got.bytes == |Flatten(got.result.value)|
    decreases |mids|
  {
    hide Scan;
    if mids != [] {
      var one := ReadOne(mids[0], pending, arrivals);
      ReadAllCounts(mids[1..], one.pending, one.rest);
      var others := ReadAll(mids[1..], one.pending, one.rest).result.value;
      assert (one.result.value + others)[1..] == others;
    }
  }

  lemma {:induction false} ReadAllOfOne(mid: nat, pending: map<nat, Frame>, arrivals: seq<Frame>)
    ensures ReadAll([mid], pending, arrivals) == ReadOne(mid, pending, arrivals)
  {
    hide ReadOne;
    var one := ReadOne(mid, pending, arrivals);
    if one.result.Ok? {
      assert [mid][1..] == [];
      assert one.result.value + [] == one.result.value && one.frames + [] == one.frames;
    }
  }

  /** These frames answer consecutive requests, from this serial number on. */
  predicate InRequestOrder(frames: seq<Frame>, from: nat) {
    forall i :: 0 <= i < |frames| ==> frames[i].serial == from + i
  }

  lemma {:induction false} InOrderMore(a: seq<Frame>, b: seq<Frame>, from: nat)
    requires InRequestOrder(a, from) && InRequestOrder(b, from + |a|)
    ensures InRequestOrder(a + b, from)
  {
  }

  // ----- The client and the server together -----

  /** The server answers: these frames, in this order. */
  function Emit(n: Net, later: seq<Frame>): Net
    decreases |later|
  {
    if later == [] then n else Emit(Step(n, Answered(later[0].serial, later[0].reply)), later[1..])
  }

  ghost predicate MayEmit(trust: Trust, file: seq<byte>, n: Net, later: seq<Frame>)
    decreases |later|
  {
    later == [] || (var e := Answered(later[0].serial, later[0].reply);
                    Enabled(trust, file, n, e) && MayEmit(trust, file, Step(n, e), later[1..]))
  }

  lemma {:induction false} EmitKeeps(trust: Trust, file: seq<byte>, n: Net, later: seq<Frame>)
    requires Inv(trust, file, n) && MayEmit(trust, file, n, later)
    ensures
      var n' := Emit(n, later);
      && Inv(trust, file, n') && Live(n') == Live(n)
      && n'.requests == n.requests && n'.pending == n.pending && n'.wire == n.wire + later
    decreases |later|
  {
    hide Inv, Live;
    if later != [] {
      AnsweredKeeps(trust, file, n, later[0].serial, later[0].reply);
      EmitKeeps(trust, file, Step(n, Answered(later[0].serial, later[0].reply)), later[1..]);
      assert (n.wire + [later[0]]) + later[1..] == n.wire + later;
    }
  }

  /** The frame is on the wire or put aside. */
  predicate HasFrame(n: Net, f: Frame) {
    f in n.wire || (f.Mid() in n.pending && n.pending[f.Mid()] == f)
  }

  lemma {:induction false} HasFrameLive(n: Net, f: Frame)
    requires HasFrame(n, f)
    ensures f.serial in Live(n)
    ensures f in n.wire ==> f.serial in OnWire(n)
  {
  }

  /** The client has received this reply. */
  function AfterFound(n: Net, found: Scanned): Net
    requires found.Found?
  {
    n.(pending := found.pending, wire := found.rest, delivered := n.delivered + {found.frame.serial})
  }

  lemma {:induction false} SameSerial(trust: Trust, file: seq<byte>, n: Net, f: Frame, g: Frame)
    requires Inv(trust, file, n) && f in n.wire && g in n.wire && f.serial == g.serial
    ensures f == g
  {
    var i :| 0 <= i < |n.wire| && n.wire[i] == f;
    var j :| 0 <= j < |n.wire| && n.wire[j] == g;
    assert i == j;
  }

  lemma {:induction false} HeldNotOnWire(trust: Trust, file: seq<byte>, n: Net, f: Frame)
    requires Inv(trust, file, n) && HasFrame(n, f) && f.Mid() in n.pending && n.pending[f.Mid()].serial == f.serial
    ensures n.pending[f.Mid()] == f
  {
    assert forall m :: m in n.pending ==> n.pending[m].serial in Held(n);
    assert forall g :: g in n.wire ==> g.serial in OnWire(n);
  }

  lemma {:induction false} PutAsideKeeps(trust: Trust, file: seq<byte>, n: Net, wanted: nat, g: Frame)
    requires Inv(trust, file, n) && n.wire != [] && n.wire[0].Mid() != wanted && HasFrame(n, g)
    ensures HasFrame(Step(n, Arrived(wanted)), g)
  {
    HeadOfWire(trust, file, n);
    assert n.wire == [n.wire[0]] + n.wire[1..];
  }

  /** A client that waits for a reply that is on its way finds that one, and loses no other. */
  lemma {:induction false} FindKeeps(trust: Trust, file: seq<byte>, n: Net, f: Frame)
    requires Inv(trust, file, n) && HasFrame(n, f)
    ensures
      var found := Scan(f.Mid(), n.pending, n.wire);
      && found.Found? && found.frame == f
      && Inv(trust, file, AfterFound(n, found))
      && Live(AfterFound(n, found)) == Live(n) - {f.serial}
      && (forall g :: HasFrame(n, g) && g != f ==> HasFrame(AfterFound(n, found), g))
    decreases |n.wire|
  {
    hide Inv, Live;
    HasFrameLive(n, f);
    if f.Mid() in n.pending {
      HandedIsAnswer(trust, file, n, Taken(f.Mid()), f.serial);
      HeldNotOnWire(trust, file, n, f);
      TakenKeeps(trust, file, n, f.Mid());
      assert AfterFound(n, Scan(f.Mid(), n.pending, n.wire)) == Step(n, Taken(f.Mid()));
      forall g | HasFrame(n, g) && g != f ensures HasFrame(AfterFound(n, Scan(f.Mid(), n.pending, n.wire)), g) {}
    } else {
      var head := n.wire[0];
      assert n.wire == [head] + n.wire[1..];
      ArrivedKeeps(trust, file, n, f.Mid());
      if head.Mid() == f.Mid() {
        HandedIsAnswer(trust, file, n, Arrived(f.Mid()), f.serial);
        SameSerial(trust, file, n, head, f);
        assert AfterFound(n, Scan(f.Mid(), n.pending, n.wire)) == Step(n, Arrived(f.Mid()));
      } else {
        var n1 := Step(n, Arrived(f.Mid()));
        FindKeeps(trust, file, n1, f);
        assert Scan(f.Mid(), n.pending, n.wire) == Scan(f.Mid(), n1.pending, n1.wire);
        forall g | HasFrame(n, g) && g != f ensures HasFrame(AfterFound(n, Scan(f.Mid(), n.pending, n.wire)), g) {
          PutAsideKeeps(trust, file, n, f.Mid(), g);
        }
      }
    }
  }

  // ----- Sending a batch -----

  function SendAll(n: Net, commands: seq<Command>): Net
    decreases |commands|
  {
    if commands == [] then n else SendAll(Step(n, Sent(commands[0])), commands[1..])
  }

  /** None of the next k ids belongs to a live request. */
  ghost predicate FreshBatch(n: Net, k: nat) {
    && k <= MIDS
    && forall s: nat, t: nat :: s in Live(n) && |n.requests| <= t < |n.requests| + k ==> MidOf(s) != MidOf(t)
  }

  lemma {:induction false} MidsDiffer(s: nat, t: nat)
    requires s < t < s + MIDS
    ensures MidOf(s) != MidOf(t)
  {
  }

  lemma {:induction false} FreshBatchNext(trust: Trust, file: seq<byte>, n: Net, command: Command, k: nat)
    requires Inv(trust, file, n) && FreshBatch(n, k) && k > 0
    ensures Inv(trust, file, Step(n, Sent(command))) && FreshBatch(Step(n, Sent(command)), k - 1)
    ensures Live(Step(n, Sent(command))) == Live(n) + {|n.requests|}
  {
    hide Inv;
    SentKeeps(trust, file, n, command);
    var n1 := Step(n, Sent(command));
    forall s: nat, t: nat | s in Live(n1) && |n1.requests| <= t < |n1.requests| + (k - 1) ensures MidOf(s) != MidOf(t) {
      if s == |n.requests| {
        MidsDiffer(s, t);
      } else {
        assert s in Live(n);
      }
    }
  }

  lemma {:induction false} SendAllKeeps(trust: Trust, file: seq<byte>, n: Net, commands: seq<Command>)
    requires Inv(trust, file, n) && FreshBatch(n, |commands|)
    ensures Inv(trust, file, SendAll(n, commands))
    decreases |commands|
  {
    hide Inv, FreshBatch;
    if commands != [] {
      FreshBatchNext(trust, file, n, commands[0], |commands|);
      SendAllKeeps(trust, file, Step(n, Sent(commands[0])), commands[1..]);
    }
  }

  // ----- What both ways of reading yield -----

  /** One reply before some others. */
  function Next(reply: Reply, others: (Result<seq<seq<byte>>>, nat, nat)): (Result<seq<seq<byte>>>, nat, nat) {
    match ParseRead(reply)
    case Err(e) => (Err(e), 0, 0)
    case Ok(data) =>
      (if others.0.Ok? then Ok([data] + others.0.value) else others.0, 1 + others.1, |data| + others.2)
  }

  /** What the answers amount to: their chunks, or the first error; and the counters. */
  function Outcome(answers: seq<Reply>): (Result<seq<seq<byte>>>, nat, nat) {
    if answers == [] then (Ok([]), 0, 0) else Next(answers[0], Outcome(answers[1..]))
  }

  function Told(got: Reads): (Result<seq<seq<byte>>>, nat, nat) { (got.result, got.calls, got.bytes) }

  lemma {:induction false} FoundFirst(mids: seq<nat>, pending: map<nat, Frame>, arrivals: seq<Frame>)
    requires mids != [] && Scan(mids[0], pending, arrivals).Found?
    ensures
      var found := Scan(mids[0], pending, arrivals);
      var others := ReadAll(mids[1..], found.pending, found.rest);
      var got := ReadAll(mids, pending, arrivals);
      && Told(got) == Next(found.frame.reply, Told(others))
      && (got.result.Ok? ==> others.result.Ok? && got.pending == others.pending)
  {
    hide Scan;
  }

  lemma {:induction false} OutcomeOfNothing()
    ensures Outcome([]) == (Ok([]), 0, 0)
  {
  }

  /** One more reply, after some that all carried data. */
  lemma {:induction false} OutcomeMore(replies: seq<Reply>, i: nat)
    requires i < |replies| && Outcome(replies[..i]).0.Ok?
    ensures
      var (chunks, calls, bytes) := Outcome(replies[..i]);
      match ParseRead(replies[i])
      case Ok(data) => Outcome(replies[..i + 1]) == (Ok(chunks.value + [data]), calls + 1, bytes + |data|)
      case Err(e) => Outcome(replies) == (Err(e), calls, bytes)
    decreases i
  {
    hide ParseRead;
    if i == 0 {
      assert replies[..0] == [] && replies[..1][1..] == [];
      if ParseRead(replies[0]).Ok? {
        var data := ParseRead(replies[0]).value;
        assert [data] + [] == [] + [data];
      }
    } else {
      assert replies[..i][1..] == replies[1..][..i - 1] && replies[..i + 1][1..] == replies[1..][..i];
      OutcomeMore(replies[1..], i - 1);
      if ParseRead(replies[0]).Ok? && ParseRead(replies[i]).Ok? {
        var chunks := Outcome(replies[1..][..i - 1]).0.value;
        var x, data := ParseRead(replies[0]).value, ParseRead(replies[i]).value;
        assert [x] + (chunks + [data]) == ([x] + chunks) + [data];
      }
    }
  }

  /** Replies up to an error say as much as all of them. */
  lemma {:induction false} OutcomeOfPrefix(replies: seq<Reply>, n: nat)
    requires n <= |replies|
    ensures Outcome(replies[..n]).0.Err? ==> Outcome(replies) == Outcome(replies[..n])
    decreases n
  {
    hide ParseRead;
    if n > 0 {
      assert replies[..n][1..] == replies[1..][..n - 1];
      OutcomeOfPrefix(replies[1..], n - 1);
    }
  }

  function RepliesOf(frames: seq<Frame>): (replies: seq<Reply>)
    ensures |replies| == |frames|
    ensures forall i :: 0 <= i < |frames| ==> replies[i] == frames[i].reply
  {
    if frames == [] then [] else [frames[0].reply] + RepliesOf(frames[1..])
  }

  /** Frames handed over for some reads were put aside before or arrived meanwhile. */
  lemma {:induction false} ReadAllFrames(mids: seq<nat>, pending: map<nat, Frame>, arrivals: seq<Frame>)
    ensures
      var got := ReadAll(mids, pending, arrivals);
      && |got.frames| <= |mids|
      && (forall f :: f in got.frames ==> f in arrivals || exists m :: m in pending && pending[m] == f)
    decreases |mids|
  {
    if mids != [] {
      hide Scan;
      ScanKeeps(mids[0], pending, arrivals);
      var one := ReadOne(mids[0], pending, arrivals);
      if one.result.Ok? {
        ReadAllFrames(mids[1..], one.pending, one.rest);
      }
    }
  }

  lemma {:induction false} NextError(reply: Reply, others: (Result<seq<seq<byte>>>, nat, nat))
    requires ParseRead(reply).Err?
    ensures Next(reply, others) == (Err(ParseRead(reply).error), 0, 0)
  {
  }

  lemma {:induction false} FramesFirst(mids: seq<nat>, pending: map<nat, Frame>, arrivals: seq<Frame>)
    requires mids != []
    requires
      var got := ReadAll(mids, pending, arrivals);
      got.result != Err(Timeout) && got.result != Err(Duplicate)
    ensures
      var found := Scan(mids[0], pending, arrivals);
      && found.Found?
      && (var others := ReadAll(mids[1..], found.pending, found.rest);
          var got := ReadAll(mids, pending, arrivals);
          if ParseRead(found.frame.reply).Ok? then
            && got.frames == [found.frame] + others.frames
            && RepliesOf(got.frames) == [found.frame.reply] + RepliesOf(others.frames)
            && (if others.result.Ok? then got.result.Ok? else got.result == others.result)
          else got.frames == [found.frame] && RepliesOf(got.frames) == [found.frame.reply] && got.result.Err?)
  {
    hide Scan, ParseRead;
    var found := Scan(mids[0], pending, arrivals);
    if found.Found? {
      var got := ReadAll(mids, pending, arrivals);
      if ParseRead(found.frame.reply).Ok? {
        assert got.frames[1..] == ReadAll(mids[1..], found.pending, found.rest).frames;
      } else {
        assert got.frames[1..] == [];
      }
    }
  }

  /** Unless a reply never came or ids collided, the outcome is that of the frames handed over. */
  lemma {:induction false} ReadAllTold(mids: seq<nat>, pending: map<nat, Frame>, arrivals: seq<Frame>)
    requires
      var got := ReadAll(mids, pending, arrivals);
      got.result != Err(Timeout) && got.result != Err(Duplicate)
    ensures
      var got := ReadAll(mids, pending, arrivals);
      && Told(got) == Outcome(RepliesOf(got.frames))
      && (got.result.Ok? ==> |got.frames| == |mids|)
    decreases |mids|
  {
    if mids == [] {
      OutcomeOfNothing();
    } else {
      hide Scan, ParseRead, ReadAll, Next;
      var found := Scan(mids[0], pending, arrivals);
      FramesFirst(mids, pending, arrivals);
      FoundFirst(mids, pending, arrivals);
      if ParseRead(found.frame.reply).Ok? {
        ReadAllTold(mids[1..], found.pending, found.rest);
      } else {
        NextError(found.frame.reply, Told(ReadAll(mids[1..], found.pending, found.rest)));
        NextError(found.frame.reply, Outcome([]));
      }
    }
  }

  function BatchMids(from: nat, k: nat): (mids: seq<nat>)
    ensures |mids| == k
    decreases k
  {
    if k == 0 then [] else [MidOf(from)] + BatchMids(from + 1, k - 1)
  }

  lemma {:induction false} BatchMidsAt(from: nat, k: nat, i: nat)
    requires i < k
    ensures BatchMids(from, k)[i] == MidOf(from + i)
    decreases k
  {
    if i > 0 {
      BatchMidsAt(from + 1, k - 1, i - 1);
    }
  }

  predicate AllOnTheWay(n: Net, from: nat, answers: seq<Reply>) {
    forall i :: 0 <= i < |answers| ==> HasFrame(n, Frame(from + i, answers[i]))
  }

  /** The next answer of a batch is found, and the others stay on their way. */
  lemma {:induction false} NextAnswer(trust: Trust, file: seq<byte>, n: Net, from: nat, answers: seq<Reply>)
    returns (n': Net)
    requires Inv(trust, file, n) && AllOnTheWay(n, from, answers) && answers != []
    ensures
      var found := Scan(MidOf(from), n.pending, n.wire);
      && found.Found? && found.frame == Frame(from, answers[0]) && n' == AfterFound(n, found)
      && Inv(trust, file, n') && Live(n') == Live(n) - {from}
      && AllOnTheWay(n', from + 1, answers[1..])
  {
    hide Inv, Live, Scan, HasFrame;
    var f := Frame(from, answers[0]);
    assert HasFrame(n, Frame(from + 0, answers[0]));
    FindKeeps(trust, file, n, f);
    n' := AfterFound(n, Scan(MidOf(from), n.pending, n.wire));
    forall i | 0 <= i < |answers[1..]| ensures HasFrame(n', Frame(from + 1 + i, answers[1..][i])) {
      assert HasFrame(n, Frame(from + (i + 1), answers[i + 1]));
    }
  }

  /** What is put aside is for live requests other than these k. */
  ghost predicate HeldFor(n: Net, pending: map<nat, Frame>, from: nat, k: nat) {
    forall m :: m in pending ==>
      && pending[m].Mid() == m && pending[m].serial in Live(n)
      && !(from <= pending[m].serial < from + k)
  }

  lemma {:induction false} HeldForOneMore(n: Net, n': Net, pending: map<nat, Frame>, from: nat, k: nat)
    requires Live(n') == Live(n) - {from} && HeldFor(n', pending, from + 1, k)
    ensures HeldFor(n, pending, from, k + 1)
  {
  }

  lemma {:induction false} StillHeld(trust: Trust, file: seq<byte>, n: Net, from: nat)
    requires Inv(trust, file, n)
    ensures HeldFor(n, n.pending, from, 0)
  {
    assert forall m :: m in n.pending ==> n.pending[m].serial in Held(n);
  }

  /** Answers that are all on their way, among any others and in any order, are received
      in request order; on success none of their ids stays put aside. */
  lemma {:induction false} ReadAllAnswers(trust: Trust, file: seq<byte>, n: Net, from: nat, answers: seq<Reply>)
    requires Inv(trust, file, n) && AllOnTheWay(n, from, answers)
    ensures
      var got := ReadAll(BatchMids(from, |answers|), n.pending, n.wire);
      && Told(got) == Outcome(answers)
      && (got.result.Ok? ==> HeldFor(n, got.pending, from, |answers|))
    decreases |answers|
  {
    if answers == [] {
      StillHeld(trust, file, n, from);
    } else {
      hide Inv, Live, Scan, AllOnTheWay, HeldFor, ReadAll, Next;
      var n1 := NextAnswer(trust, file, n, from, answers);
      ReadAllAnswers(trust, file, n1, from + 1, answers[1..]);
      var mids := BatchMids(from, |answers|);
      assert mids[1..] == BatchMids(from + 1, |answers| - 1);
      FoundFirst(mids, n.pending, n.wire);
      if ReadAll(mids, n.pending, n.wire).result.Ok? {
        HeldForOneMore(n, n1, ReadAll(mids, n.pending, n.wire).pending, from, |answers| - 1);
      }
    }
  }

  // ----- The two runs -----

  /** All requests are sent, the server answers some requests, old ones too, and the
      replies are received in request order. */
  function Pipelined(n: Net, commands: seq<Command>, later: seq<Frame>): Reads {
    var n1 := Emit(SendAll(n, commands), later);
    ReadAll(BatchMids(|n.requests|, |commands|), n1.pending, n1.wire)
  }

  /** A burst of frames that answers the batch that begins at this serial number. */
  ghost predicate Serves(trust: Trust, file: seq<byte>, n: Net, from: nat, answers: seq<Reply>, later: seq<Frame>) {
    && MayEmit(trust, file, n, later)
    && forall i :: 0 <= i < |answers| ==> Frame(from + i, answers[i]) in later
  }

  function AfterOne(n: Net, one: Reads): Net
    requires |one.frames| == 1
  {
    n.(pending := one.pending, wire := one.rest, delivered := n.delivered + {one.frames[0].serial})
  }

  /** One read at a time: a request is sent, the server answers some requests, old ones
      too, and its reply is received; an error ends it. */
  function Sequential(n: Net, commands: seq<Command>, bursts: seq<seq<Frame>>): Reads
    requires |bursts| == |commands|
    decreases |commands|
  {
    if commands == [] then Reads(Ok([]), [], n.pending, n.wire, 0, 0)
    else
      var n1 := Emit(Step(n, Sent(commands[0])), bursts[0]);
      var one := ReadOne(MidOf(|n.requests|), n1.pending, n1.wire);
      if one.result.Err? then one else Extend(one, Sequential(AfterOne(n1, one), commands[1..], bursts[1..]))
  }

  lemma {:induction false} FoundNext(n: Net, commands: seq<Command>, bursts: seq<seq<Frame>>)
    requires |bursts| == |commands| && commands != []
    requires
      var n1 := Emit(Step(n, Sent(commands[0])), bursts[0]);
      Scan(MidOf(|n.requests|), n1.pending, n1.wire).Found?
    ensures
      var n1 := Emit(Step(n, Sent(commands[0])), bursts[0]);
      var found := Scan(MidOf(|n.requests|), n1.pending, n1.wire);
      && (ParseRead(found.frame.reply).Ok? ==>
            Told(Sequential(n, commands, bursts))
            == Next(found.frame.reply, Told(Sequential(AfterFound(n1, found), commands[1..], bursts[1..]))))
      && (ParseRead(found.frame.reply).Err? ==>
            Told(Sequential(n, commands, bursts)) == (Err(ParseRead(found.frame.reply).error), 0, 0))
  {
    hide Scan, Emit, Step;
  }

  /** Each burst holds the answer to the request before it, among any others. */
  ghost predicate ServesEach(trust: Trust, file: seq<byte>, n: Net, commands: seq<Command>, answers: seq<Reply>,
                             bursts: seq<seq<Frame>>)
    requires |answers| == |bursts| == |commands|
    decreases |commands|
  {
    commands == []
    || (var n1 := Step(n, Sent(commands[0]));
        var n2 := Emit(n1, bursts[0]);
        var one := ReadOne(MidOf(|n.requests|), n2.pending, n2.wire);
        && Serves(trust, file, n1, |n.requests|, [answers[0]], bursts[0])
        && (one.result.Ok? ==> ServesEach(trust, file, AfterOne(n2, one), commands[1..], answers[1..], bursts[1..])))
  }

  lemma {:induction false} ServedOnTheWay(trust: Trust, file: seq<byte>, n: Net, from: nat, answers: seq<Reply>,
                                          later: seq<Frame>)
    requires Inv(trust, file, n) && Serves(trust, file, n, from, answers, later)
    ensures Inv(trust, file, Emit(n, later)) && AllOnTheWay(Emit(n, later), from, answers)
    ensures Live(Emit(n, later)) == Live(n) && Emit(n, later).requests == n.requests
  {
    EmitKeeps(trust, file, n, later);
  }

  lemma {:induction false} FewerLive(n: Net, n': Net, k: nat)
    requires FreshBatch(n, k) && Live(n') <= Live(n) && n'.requests == n.requests
    ensures FreshBatch(n', k)
  {
  }

  lemma {:induction false} SequentialOutcome(trust: Trust, file: seq<byte>, n: Net, commands: seq<Command>,
                                             answers: seq<Reply>,
                                             bursts: seq<seq<Frame>>)
    requires |answers| == |bursts| == |commands|
    requires Inv(trust, file, n) && FreshBatch(n, |commands|) && ServesEach(trust, file, n, commands, answers, bursts)
    ensures Told(Sequential(n, commands, bursts)) == Outcome(answers)
    decreases |commands|
  {
    if commands != [] {
      hide Inv, Live, FreshBatch, Serves, AllOnTheWay, Scan, Emit, Sequential, Next, Told;
      FreshBatchNext(trust, file, n, commands[0], |commands|);
      var n1 := Step(n, Sent(commands[0]));
      ServedOnTheWay(trust, file, n1, |n.requests|, [answers[0]], bursts[0]);
      var n2 := Emit(n1, bursts[0]);
      var n3 := NextAnswer(trust, file, n2, |n.requests|, [answers[0]]);
      FoundNext(n, commands, bursts);
      if ParseRead(answers[0]).Err? {
        assert Outcome(answers) == Next(answers[0], Outcome(answers[1..]));
        NextError(answers[0], Outcome(answers[1..]));
      } else {
        FewerLive(n1, n3, |commands| - 1);
        SequentialOutcome(trust, file, n3, commands[1..], answers[1..], bursts[1..]);
      }
    }
  }

  lemma {:induction false} OnTheWayLive(n: Net, from: nat, answers: seq<Reply>, i: nat)
    requires AllOnTheWay(n, from, answers) && i < |answers|
    ensures from + i in Live(n)
  {
    HasFrameLive(n, Frame(from + i, answers[i]));
  }

  lemma {:induction false} NotHeld(trust: Trust, file: seq<byte>, n: Net, pending: map<nat, Frame>, from: nat, k: nat,
                                   s: nat)
    requires Inv(trust, file, n) && HeldFor(n, pending, from, k) && from <= s < from + k && s in Live(n)
    ensures MidOf(s) !in pending
  {
  }

  /** A pipelined batch refines one read at a time. From any state in which none of the next
      ids belongs to a live request, if the server answers each alike in both runs, for every
      order in which answers come, mixed in either run with any replies to requests that
      were abandoned before, both yield the same chunks in request order or the same
      first error, and advance the counters alike. A batch that succeeds leaves none of
      its ids put aside. */
  lemma {:induction false} PipelinedIsSequential(trust: Trust, file: seq<byte>, n: Net, commands: seq<Command>,
                                                 answers: seq<Reply>,
                                                 later: seq<Frame>, bursts: seq<seq<Frame>>)
    requires |answers| == |bursts| == |commands|
    requires Inv(trust, file, n) && FreshBatch(n, |commands|)
    requires Serves(trust, file, SendAll(n, commands), |n.requests|, answers, later)
    requires ServesEach(trust, file, n, commands, answers, bursts)
    ensures Told(Pipelined(n, commands, later)) == Told(Sequential(n, commands, bursts)) == Outcome(answers)
    ensures Pipelined(n, commands, later).result.Ok? ==>
              forall s: nat :: |n.requests| <= s < |n.requests| + |commands| ==>
                MidOf(s) !in Pipelined(n, commands, later).pending
  {
    hide Inv, Live, Serves, ServesEach, FreshBatch, ReadAll, Emit, Sequential, AllOnTheWay, HeldFor, Outcome;
    SequentialOutcome(trust, file, n, commands, answers, bursts);
    SendAllKeeps(trust, file, n, commands);
    var n1 := SendAll(n, commands);
    ServedOnTheWay(trust, file, n1, |n.requests|, answers, later);
    var n2 := Emit(n1, later);
    ReadAllAnswers(trust, file, n2, |n.requests|, answers);
    var got := Pipelined(n, commands, later);
    if got.result.Ok? {
      forall s: nat | |n.requests| <= s < |n.requests| + |commands| ensures MidOf(s) !in got.pending {
        OnTheWayLive(n2, |n.requests|, answers, s - |n.requests|);
        NotHeld(trust, file, n2, got.pending, |n.requests|, |commands|, s);
      }
    }
  }

  // ----- Such runs exist -----

  /** The answers in request order, and nothing else. */
  function InOrder(from: nat, answers: seq<Reply>): (frames: seq<Frame>)
    ensures |frames| == |answers|
    ensures forall i :: 0 <= i < |answers| ==> frames[i] == Frame(from + i, answers[i])
    decreases |answers|
  {
    if answers == [] then [] else [Frame(from, answers[0])] + InOrder(from + 1, answers[1..])
  }

  function OneByOne(from: nat, answers: seq<Reply>): (bursts: seq<seq<Frame>>)
    ensures |bursts| == |answers|
    decreases |answers|
  {
    if answers == [] then [] else [[Frame(from, answers[0])]] + OneByOne(from + 1, answers[1..])
  }

  predicate MayAnswer(trust: Trust, file: seq<byte>, commands: seq<Command>, answers: seq<Reply>) {
    |answers| == |commands| && forall i :: 0 <= i < |commands| ==> Answers(trust, file, commands[i], answers[i])
  }

  predicate Owed(n: Net, from: nat, commands: seq<Command>) {
    && from + |commands| <= |n.requests|
    && forall s :: from <= s < from + |commands| ==> s in n.outstanding && n.requests[s] == Some(commands[s - from])
  }

  lemma {:induction false} SentIsOwed(n: Net, commands: seq<Command>)
    ensures
      var n' := SendAll(n, commands);
      && Owed(n', |n.requests|, commands) && n.outstanding <= n'.outstanding && n.requests <= n'.requests
    decreases |commands|
  {
    if commands != [] {
      var n1 := Step(n, Sent(commands[0]));
      SentIsOwed(n1, commands[1..]);
      var n' := SendAll(n1, commands[1..]);
      assert n'.requests[|n.requests|] == n1.requests[|n.requests|] == Some(commands[0]);
    }
  }

  lemma {:induction false} MayAnswerSize(trust: Trust, file: seq<byte>, commands: seq<Command>, answers: seq<Reply>)
    requires MayAnswer(trust, file, commands, answers)
    ensures |answers| == |commands|
  {
  }

  lemma {:induction false} MayAnswerNext(trust: Trust, file: seq<byte>, commands: seq<Command>, answers: seq<Reply>)
    requires MayAnswer(trust, file, commands, answers) && commands != []
    ensures Answers(trust, file, commands[0], answers[0])
    ensures MayAnswer(trust, file, commands[1..], answers[1..])
  {
  }

  /** The oldest request owed is answered; the others stay owed. */
  lemma {:induction false} OwedNext(n: Net, from: nat, commands: seq<Command>, reply: Reply)
    requires Owed(n, from, commands) && commands != []
    ensures Owed(Step(n, Answered(from, reply)), from + 1, commands[1..])
  {
    var n1 := Step(n, Answered(from, reply));
    forall s | from + 1 <= s < from + |commands|
      ensures s in n1.outstanding && n1.requests[s] == Some(commands[1..][s - (from + 1)])
    {
      assert commands[1..][s - (from + 1)] == commands[s - from];
    }
  }

  lemma {:induction false} MayEmitInOrder(trust: Trust, file: seq<byte>, n: Net, from: nat, commands: seq<Command>,
                                          answers: seq<Reply>)
    requires MayAnswer(trust, file, commands, answers) && Owed(n, from, commands)
    ensures MayEmit(trust, file, n, InOrder(from, answers))
    decreases |commands|
  {
    hide MayAnswer, Answers;
    MayAnswerSize(trust, file, commands, answers);
    if commands != [] {
      assert n.requests[from] == Some(commands[0]);
      MayAnswerNext(trust, file, commands, answers);
      OwedNext(n, from, commands, answers[0]);
      MayEmitInOrder(trust, file, Step(n, Answered(from, answers[0])), from + 1, commands[1..], answers[1..]);
      var frames := InOrder(from, answers);
      assert frames[0] == Frame(from, answers[0]) && frames[1..] == InOrder(from + 1, answers[1..]);
    }
  }

  /** A request just sent may be answered at once. */
  lemma {:induction false} ServesOne(trust: Trust, file: seq<byte>, n: Net, command: Command, reply: Reply)
    requires Answers(trust, file, command, reply)
    ensures Serves(trust, file, Step(n, Sent(command)), |n.requests|, [reply], [Frame(|n.requests|, reply)])
  {
    hide Answers;
    var n1 := Step(n, Sent(command));
    var later := [Frame(|n.requests|, reply)];
    assert n1.requests[|n.requests|] == Some(command);
    assert Enabled(trust, file, n1, Answered(later[0].serial, later[0].reply));
    assert later[1..] == [];
    assert MayEmit(trust, file, Step(n1, Answered(later[0].serial, later[0].reply)), later[1..]);
    assert later[0] in later;
  }

  lemma {:induction false} ServesOneByOne(trust: Trust, file: seq<byte>, n: Net, commands: seq<Command>,
                                          answers: seq<Reply>)
    requires Inv(trust, file, n) && FreshBatch(n, |commands|) && MayAnswer(trust, file, commands, answers)
    ensures ServesEach(trust, file, n, commands, answers, OneByOne(|n.requests|, answers))
    decreases |commands|
  {
    hide Inv, Live, FreshBatch, AllOnTheWay, Scan, MayAnswer, Answers, Serves, Emit;
    MayAnswerSize(trust, file, commands, answers);
    if commands != [] {
      var bursts := OneByOne(|n.requests|, answers);
      MayAnswerNext(trust, file, commands, answers);
      FreshBatchNext(trust, file, n, commands[0], |commands|);
      var n1 := Step(n, Sent(commands[0]));
      ServesOne(trust, file, n, commands[0], answers[0]);
      assert bursts[1..] == OneByOne(|n.requests| + 1, answers[1..]);
      ServedOnTheWay(trust, file, n1, |n.requests|, [answers[0]], bursts[0]);
      var n2 := Emit(n1, bursts[0]);
      var n3 := NextAnswer(trust, file, n2, |n.requests|, [answers[0]]);
      FewerLive(n1, n3, |commands| - 1);
      ServesOneByOne(trust, file, n3, commands[1..], answers[1..]);
    }
  }

  /** From any such state, and for any answers the server may give, both runs can be had. */
  lemma {:induction false} BothRunsExist(trust: Trust, file: seq<byte>, n: Net, commands: seq<Command>,
                                         answers: seq<Reply>)
    requires Inv(trust, file, n) && FreshBatch(n, |commands|) && MayAnswer(trust, file, commands, answers)
    ensures Serves(trust, file, SendAll(n, commands), |n.requests|, answers, InOrder(|n.requests|, answers))
    ensures ServesEach(trust, file, n, commands, answers, OneByOne(|n.requests|, answers))
  {
    hide Inv, FreshBatch, ServesEach, MayEmit;
    SentIsOwed(n, commands);
    MayEmitInOrder(trust, file, SendAll(n, commands), |n.requests|, commands, answers);
    ServesOneByOne(trust, file, n, commands, answers);
    var frames := InOrder(|n.requests|, answers);
    forall i | 0 <= i < |answers| ensures Frame(|n.requests| + i, answers[i]) in frames {
      assert frames[i] == Frame(|n.requests| + i, answers[i]);
    }
  }
}
