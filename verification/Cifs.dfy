/** The session: sending, receiving, and reading one or many pieces of the file. */
module CifsSession {
  import opened Base
  import opened Multiplex
  import opened Pipelining
  import StreamSpec

  lemma {:induction false} NextMid(n: nat)
    ensures (MidOf(n) + 1) % MIDS == MidOf(n + 1)
  {
  }

  /** What is live while a batch is in flight. */
  function InFlight(live: set<nat>, from: nat, to: nat): set<nat> { live + Serials(from, to) }

  lemma {:induction false} BatchGrows(live: set<nat>, from: nat, to: nat)
    requires from <= to
    ensures InFlight(live, from, to) + {to} == InFlight(live, from, to + 1)
  {
  }

  lemma {:induction false} BatchShrinks(live: set<nat>, from: nat, to: nat)
    requires from < to && forall s :: s in live ==> s < from
    ensures from in InFlight(live, from, to)
    ensures InFlight(live, from, to) - {from} == InFlight(live, from + 1, to)
  {
  }

  lemma {:induction false} BatchEmpty(live: set<nat>, n: nat)
    ensures InFlight(live, n, n) == live
  {
  }

  /** These ids went out for the first requests of a batch, from this serial number on. */
  predicate BatchSent(requests: seq<Option<Command>>, ids: seq<nat>, reqs: seq<StreamSpec.Request>, base: nat) {
    && |ids| <= |reqs| && base + |ids| <= |requests|
    && forall j :: 0 <= j < |ids| ==>
         ids[j] == MidOf(base + j) && requests[base + j] == Some(ReadCommand(reqs[j].offset, reqs[j].len))
  }

  lemma {:induction false} BatchSentAt(requests: seq<Option<Command>>, ids: seq<nat>, reqs: seq<StreamSpec.Request>,
                                       base: nat, i: nat)
    requires BatchSent(requests, ids, reqs, base) && i < |ids|
    ensures i < |reqs| && base + i < |requests|
    ensures ids[i] == MidOf(base + i) && requests[base + i] == Some(ReadCommand(reqs[i].offset, reqs[i].len))
  {
  }

  lemma {:induction false} BatchSentPush(requests: seq<Option<Command>>, ids: seq<nat>, reqs: seq<StreamSpec.Request>,
                                         base: nat, id: nat)
    requires BatchSent(requests, ids, reqs, base) && |ids| < |reqs|
    requires base + |ids| == |requests| && id == MidOf(|requests|)
    ensures
      var next := reqs[|ids|];
      BatchSent(requests + [Some(ReadCommand(next.offset, next.len))], ids + [id], reqs, base)
  {
  }

  lemma {:induction false} MidsOfBatch(requests: seq<Option<Command>>, ids: seq<nat>, reqs: seq<StreamSpec.Request>,
                                       base: nat)
    requires BatchSent(requests, ids, reqs, base)
    ensures ids == BatchMids(base, |ids|)
  {
    forall i | 0 <= i < |ids| ensures ids[i] == BatchMids(base, |ids|)[i] {
      BatchMidsAt(base, |ids|, i);
    }
  }

  lemma {:induction false} OneMid(base: nat)
    ensures BatchMids(base, 1) == [MidOf(base)]
  {
  }

  lemma {:induction false} NothingInOrder(base: nat)
    ensures InRequestOrder([], base)
  {
  }

  predicate GoodSoFar(trust: Trust, file: seq<byte>, reqs: seq<StreamSpec.Request>, chunks: seq<seq<byte>>) {
    && |chunks| <= |reqs|
    && forall i :: 0 <= i < |chunks| ==> GoodData(trust, file, reqs[i].offset, reqs[i].len, chunks[i])
  }

  /** Every chunk of a batch answers its own request. */
  predicate AllGood(trust: Trust, file: seq<byte>, reqs: seq<StreamSpec.Request>, chunks: seq<seq<byte>>) {
    |chunks| == |reqs| && GoodSoFar(trust, file, reqs, chunks)
  }

  lemma {:induction false} GoodPush(trust: Trust, file: seq<byte>, reqs: seq<StreamSpec.Request>,
                                    chunks: seq<seq<byte>>,
                                    chunk: seq<byte>)
    requires GoodSoFar(trust, file, reqs, chunks) && |chunks| < |reqs|
    requires GoodData(trust, file, reqs[|chunks|].offset, reqs[|chunks|].len, chunk)
    ensures GoodSoFar(trust, file, reqs, chunks + [chunk])
  {
  }

  lemma {:induction false} GoodNothing(trust: Trust, file: seq<byte>, reqs: seq<StreamSpec.Request>)
    ensures GoodSoFar(trust, file, reqs, [])
  {
  }

  lemma {:induction false} NoneGood(trust: Trust, file: seq<byte>, reqs: seq<StreamSpec.Request>)
    requires reqs == []
    ensures AllGood(trust, file, reqs, []) && |Flatten([])| == 0
  {
  }

  lemma {:induction false} OneGood(trust: Trust, file: seq<byte>, reqs: seq<StreamSpec.Request>, chunk: seq<byte>)
    requires |reqs| == 1
    ensures GoodData(trust, file, reqs[0].offset, reqs[0].len, chunk) ==> AllGood(trust, file, reqs, [chunk])
    ensures Flatten([chunk]) == chunk
  {
    assert [chunk][1..] == [];
  }

  /** A batch sent with nothing live never meets its own ids. */
  lemma {:induction false} BatchFresh(n: Net, from: nat, command: Command)
    requires Live(n) == InFlight({}, from, |n.requests|) && from <= |n.requests| < from + MIDS
    ensures Fresh(n, Sent(command))
  {
    forall s | s in Live(n) ensures MidOf(s) != MidOf(|n.requests|) {
      assert 0 < |n.requests| - s < MIDS;
    }
  }

  lemma {:induction false} LiveBelow(trust: Trust, file: seq<byte>, n: Net)
    requires Inv(trust, file, n)
    ensures forall s :: s in Live(n) ==> s < |n.requests|
  {
    assert forall s :: s in Live(n) ==> s in AllSent(n);
  }

  /** The reply to a live request is still to come, unless one was put aside under its id. */
  lemma {:induction false} LiveComing(trust: Trust, file: seq<byte>, n: Net, serial: nat)
    requires Inv(trust, file, n) && serial in Live(n) && MidOf(serial) !in n.pending
    ensures n.outstanding != {} || n.wire != []
  {
    if n.wire == [] {
      assert OnWire(n) == {};
      assert forall mid :: mid in n.pending ==> MidOf(n.pending[mid].serial) == mid;
      assert serial !in Held(n);
    }
  }

  /** A request sent with nothing live is fresh, and once answered leaves no trace. */
  lemma {:induction false} BeforeSend(trust: Trust, file: seq<byte>, n: Net, command: Command)
    requires Inv(trust, file, n)
    ensures Live(n) == {} ==> Fresh(n, Sent(command))
    ensures Live(n) + {|n.requests|} - {|n.requests|} == Live(n)
  {
    LiveBelow(trust, file, n);
  }

  lemma {:induction false} ScanNothing(wanted: nat, pending: map<nat, Frame>)
    ensures ScanWire(wanted, pending, []) == Starved(pending)
  {
  }

  lemma {:induction false} ScanOne(wanted: nat, pending: map<nat, Frame>, f: Frame)
    ensures ScanWire(wanted, pending, [f])
            == (if f.Mid() == wanted then Found(f, pending, [])
                else if f.Mid() in pending then Repeated(f.Mid(), pending[f.Mid() := f], [])
                else Starved(pending[f.Mid() := f]))
  {
    assert [f][1..] == [];
  }

  // ----- What the server says -----

  /** What a server would answer to each request, by its command and its serial number. */
  type Script = (Command, nat) -> Reply

  /** The server's answer to a request: the scripted one if it is trusted to give it,
      an error status otherwise. */
  function Says(trust: Trust, file: seq<byte>, script: Script, command: Command, serial: nat): (reply: Reply)
    ensures Answers(trust, file, command, reply)
  {
    if Answers(trust, file, command, script(command, serial)) then script(command, serial) else Status
  }

  /** The server answers every read within the file with some of its bytes. */
  ghost predicate Willing(trust: Trust, file: seq<byte>, script: Script) {
    && (trust.Prefix? || trust.Exact?)
    && forall offset: nat, len: nat, serial: nat :: len > 0 && offset + len <= |file| ==>
         Says(trust, file, script, ReadCommand(offset, len), serial).Data?
  }

  /** A server that sends the bytes asked for is willing. */
  lemma {:induction false} HonestIsWilling(file: seq<byte>, script: Script)
    requires forall offset: nat, len: nat, serial: nat :: offset + len <= |file| ==>
               script(ReadCommand(offset, len), serial) == Data(file[offset..offset + len])
    ensures Willing(Exact, file, script)
  {
  }

  lemma {:induction false} WillingRead(trust: Trust, file: seq<byte>, script: Script, offset: nat, len: nat,
                                       serial: nat)
    ensures Willing(trust, file, script) && len > 0 && offset + len <= |file| ==>
              var parsed := ParseRead(Says(trust, file, script, ReadCommand(offset, len), serial));
              parsed.Ok? && parsed.value != []
  {
  }

  /** The frame is the server's answer to a request that was sent. */
  predicate Genuine(trust: Trust, file: seq<byte>, script: Script, requests: seq<Option<Command>>, f: Frame) {
    && f.serial < |requests| && requests[f.serial].Some?
    && f.reply == Says(trust, file, script, requests[f.serial].value, f.serial)
  }

  predicate AllGenuine(trust: Trust, file: seq<byte>, script: Script, requests: seq<Option<Command>>,
                       frames: seq<Frame>)
  {
    forall f :: f in frames ==> Genuine(trust, file, script, requests, f)
  }

  predicate HeldGenuine(trust: Trust, file: seq<byte>, script: Script, requests: seq<Option<Command>>,
                        pending: map<nat, Frame>)
  {
    forall m :: m in pending ==> Genuine(trust, file, script, requests, pending[m])
  }

  lemma {:induction false} GenuineLater(trust: Trust, file: seq<byte>, script: Script,
                                        requests: seq<Option<Command>>, later: seq<Option<Command>>,
                                        frames: seq<Frame>, pending: map<nat, Frame>)
    requires requests <= later
    ensures AllGenuine(trust, file, script, requests, frames) ==> AllGenuine(trust, file, script, later, frames)
    ensures HeldGenuine(trust, file, script, requests, pending) ==> HeldGenuine(trust, file, script, later, pending)
  {
    hide Says;
  }

  lemma {:induction false} GenuineMore(trust: Trust, file: seq<byte>, script: Script,
                                       requests: seq<Option<Command>>, a: seq<Frame>, b: seq<Frame>)
    requires AllGenuine(trust, file, script, requests, a) && AllGenuine(trust, file, script, requests, b)
    ensures AllGenuine(trust, file, script, requests, a + b)
  {
    hide Genuine;
  }

  lemma {:induction false} GenuineOne(trust: Trust, file: seq<byte>, script: Script,
                                      requests: seq<Option<Command>>, serial: nat)
    requires serial < |requests| && requests[serial].Some?
    ensures AllGenuine(trust, file, script, requests,
                       [Frame(serial, Says(trust, file, script, requests[serial].value, serial))])
  {
  }

  lemma {:induction false} GenuineHead(trust: Trust, file: seq<byte>, script: Script,
                                       requests: seq<Option<Command>>, wire: seq<Frame>, pending: map<nat, Frame>)
    requires AllGenuine(trust, file, script, requests, wire) && wire != []
    requires HeldGenuine(trust, file, script, requests, pending)
    ensures Genuine(trust, file, script, requests, wire[0])
    ensures AllGenuine(trust, file, script, requests, [wire[0]])
    ensures AllGenuine(trust, file, script, requests, wire[1..])
    ensures HeldGenuine(trust, file, script, requests, pending[wire[0].Mid() := wire[0]])
  {
    hide Genuine;
  }

  /** The replies the server gives to a batch whose first request has this serial number. */
  function BatchReplies(trust: Trust, file: seq<byte>, script: Script, reqs: seq<StreamSpec.Request>,
                        base: nat): (replies: seq<Reply>)
    ensures |replies| == |reqs|
  {
    seq(|reqs|, i requires 0 <= i < |reqs| =>
      Says(trust, file, script, ReadCommand(reqs[i].offset, reqs[i].len), base + i))
  }

  predicate BatchRequested(requests: seq<Option<Command>>, reqs: seq<StreamSpec.Request>, base: nat) {
    && base + |reqs| <= |requests|
    && forall i :: 0 <= i < |reqs| ==> requests[base + i] == Some(ReadCommand(reqs[i].offset, reqs[i].len))
  }

  /** Frames handed over for a batch in order are the server's answers to it, from the first on. */
  lemma {:induction false} HandedReplies(trust: Trust, file: seq<byte>, script: Script,
                                         requests: seq<Option<Command>>, reqs: seq<StreamSpec.Request>, base: nat,
                                         frames: seq<Frame>)
    requires BatchRequested(requests, reqs, base) && |frames| <= |reqs| && InRequestOrder(frames, base)
    requires AllGenuine(trust, file, script, requests, frames)
    ensures RepliesOf(frames) == BatchReplies(trust, file, script, reqs, base)[..|frames|]
  {
    hide Says;
    forall i | 0 <= i < |frames|
      ensures frames[i].reply == BatchReplies(trust, file, script, reqs, base)[i]
    {
      assert frames[i] in frames && frames[i].serial == base + i;
      assert requests[base + i] == Some(ReadCommand(reqs[i].offset, reqs[i].len));
    }
  }

  lemma {:induction false} NothingGenuine(trust: Trust, file: seq<byte>, script: Script,
                                          requests: seq<Option<Command>>)
    ensures AllGenuine(trust, file, script, requests, [])
  {
  }

  lemma {:induction false} NoReplies(trust: Trust, file: seq<byte>, script: Script, reqs: seq<StreamSpec.Request>,
                                     base: nat)
    requires reqs == []
    ensures Outcome(BatchReplies(trust, file, script, reqs, base)) == (Ok([]), 0, 0)
  {
  }

  lemma {:induction false} OneReply(trust: Trust, file: seq<byte>, script: Script, reqs: seq<StreamSpec.Request>,
                                    base: nat)
    requires |reqs| == 1
    ensures
      var parsed := ParseRead(Says(trust, file, script, ReadCommand(reqs[0].offset, reqs[0].len), base));
      Outcome(BatchReplies(trust, file, script, reqs, base))
      == (if parsed.Ok? then (Ok([parsed.value]), 1, |parsed.value|) else (Err(parsed.error), 0, 0))
  {
    hide Says, ParseRead;
    var replies := BatchReplies(trust, file, script, reqs, base);
    OutcomeOfNothing();
    assert replies[..0] == [] && replies[..1] == replies;
    OutcomeMore(replies, 0);
    assert forall data: seq<byte> :: [] + [data] == [data];
  }

  lemma {:induction false} BatchReplyAt(trust: Trust, file: seq<byte>, script: Script,
                                        reqs: seq<StreamSpec.Request>, base: nat, i: nat)
    requires i < |reqs|
    ensures BatchReplies(trust, file, script, reqs, base)[i]
         == Says(trust, file, script, ReadCommand(reqs[i].offset, reqs[i].len), base + i)
  {
  }

  /** What a batch amounts to, by the server's own answers: unless the wait was given up,
      the result and the counters are those of the answers in request order. */
  lemma {:induction false} ToldByServer(trust: Trust, file: seq<byte>, script: Script,
                                        requests: seq<Option<Command>>, reqs: seq<StreamSpec.Request>, base: nat,
                                        pending: map<nat, Frame>, arrived: seq<Frame>)
    requires BatchRequested(requests, reqs, base)
    requires HeldGenuine(trust, file, script, requests, pending)
    requires AllGenuine(trust, file, script, requests, arrived)
    requires
      var got := ReadAll(BatchMids(base, |reqs|), pending, arrived);
      InRequestOrder(got.frames, base) && got.result != Err(Timeout) && got.result != Err(Duplicate)
    ensures Told(ReadAll(BatchMids(base, |reqs|), pending, arrived))
         == Outcome(BatchReplies(trust, file, script, reqs, base))
  {
    hide ReadAll, Genuine, BatchReplies, Outcome, InRequestOrder, BatchRequested, BatchMids;
    var mids := BatchMids(base, |reqs|);
    var got := ReadAll(mids, pending, arrived);
    ReadAllFrames(mids, pending, arrived);
    assert AllGenuine(trust, file, script, requests, got.frames);
    HandedReplies(trust, file, script, requests, reqs, base, got.frames);
    ReadAllTold(mids, pending, arrived);
    var replies := BatchReplies(trust, file, script, reqs, base);
    OutcomeOfPrefix(replies, |got.frames|);
    assert replies[..|replies|] == replies;
  }

  /** Every request asks for some bytes that the file has. */
  predicate WithinFile(file: seq<byte>, reqs: seq<StreamSpec.Request>) {
    forall i :: 0 <= i < |reqs| ==> 0 < reqs[i].len < U32_LIMIT && reqs[i].offset + reqs[i].len <= |file|
  }

  lemma {:induction false} OutcomeOfData(replies: seq<Reply>, i: nat)
    requires i <= |replies| && forall k :: 0 <= k < |replies| ==> ParseRead(replies[k]).Ok?
    ensures Outcome(replies[..i]).0.Ok?
    decreases i
  {
    hide ParseRead, Outcome;
    if i == 0 {
      OutcomeOfNothing();
      assert replies[..0] == [];
    } else {
      OutcomeOfData(replies, i - 1);
      OutcomeMore(replies, i - 1);
    }
  }

  /** A willing server answers such a batch in full. */
  lemma {:induction false} WillingBatch(trust: Trust, file: seq<byte>, script: Script, reqs: seq<StreamSpec.Request>,
                                        base: nat)
    ensures Willing(trust, file, script) && WithinFile(file, reqs) ==>
              Outcome(BatchReplies(trust, file, script, reqs, base)).0.Ok?
  {
    hide Willing, ParseRead, Says, Outcome;
    var replies := BatchReplies(trust, file, script, reqs, base);
    if Willing(trust, file, script) && WithinFile(file, reqs) {
      forall k | 0 <= k < |replies| ensures ParseRead(replies[k]).Ok? {
        WillingRead(trust, file, script, reqs[k].offset, reqs[k].len, base + k);
      }
      assert replies[..|replies|] == replies;
      OutcomeOfData(replies, |replies|);
    }
  }

  /** These frames came off the wire, in order: what is left follows them. */
  predicate OffTheWire(before: seq<Frame>, taken: seq<Frame>, after: seq<Frame>) { before <= taken + after }

  lemma {:induction false} OffNothing(wire: seq<Frame>)
    ensures OffTheWire(wire, [], wire)
  {
  }

  lemma {:induction false} OffChain(before: seq<Frame>, a: seq<Frame>, between: seq<Frame>, b: seq<Frame>,
                                    after: seq<Frame>)
    requires OffTheWire(before, a, between) && OffTheWire(between, b, after)
    ensures OffTheWire(before, a + b, after)
  {
    assert (a + b) + after == a + (b + after);
    assert a + between <= a + (b + after);
  }

  // ----- The session -----

  /** One turn of the receive loop. */
  datatype Turn = Wanted(frame: Frame) | Aside | Clash | GaveUp

  class Cifs {
    const trust: Trust
    const file: seq<byte>

    /** What the server would answer to each request, if it may. */
    const script: Script

    /** The connection holds, no call is abandoned, and the server answers every request. */
    const steady: bool

    var mid: nat
    var pendingReplies: map<nat, Frame>
    var readCalls: nat
    var readBytes: nat

    // The far end: every request sent so far, those the server has not answered
    // yet, and the frames on their way back. The client reads none of it but the
    // head of the wire.
    var requests: seq<Option<Command>>
    var outstanding: set<nat>
    var wire: seq<Frame>

    /** The requests whose replies were handed to a caller. */
    ghost var delivered: set<nat>

    /** Set when a request went out under the id of one that was still live. */
    ghost var stale: bool

    /** Client and far end together. */
    ghost function State(): Net
      reads this
    {
      Net(requests, outstanding, wire, pendingReplies, delivered)
    }

    /** Every frame on the wire or put aside is the server's own. */
    ghost predicate Honest()
      reads this
    {
      && AllGenuine(trust, file, script, requests, wire)
      && HeldGenuine(trust, file, script, requests, pendingReplies)
    }

    ghost predicate Valid()
      reads this
    {
      && mid == MidOf(|requests|)
      && (forall s :: s in outstanding ==> s < |requests| && requests[s].Some?)
      && Honest()
      && (!stale ==> Inv(trust, file, State()))
      && (stale ==> |requests| > MIDS)
    }

    /** Nothing is left to come, and every read of the file will be answered. */
    ghost predicate Serving()
      reads this
    {
      steady && Willing(trust, file, script) && !stale && Live(State()) == {}
    }

    /** No id is reused before 65536 of them were. */
    lemma {:induction false} StaleLate()
      requires Valid()
      ensures stale ==> |requests| > MIDS
    {
    }

    constructor (trust: Trust, file: seq<byte>, script: Script, steady: bool)
      ensures Valid() && !stale && State() == IDLE
      ensures this.trust == trust && this.file == file && this.script == script && this.steady == steady
      ensures readCalls == 0 && readBytes == 0
      ensures steady && Willing(trust, file, script) ==> Serving()
    {
      this.trust, this.file, this.script, this.steady := trust, file, script, steady;
      mid, pendingReplies, readCalls, readBytes := 0, map[], 0, 0;
      requests, outstanding, wire, delivered, stale := [], {}, [], {}, false;
    }

    /** Between two steps of the client, the server answers any of the outstanding
        requests, in any order. */
    method ServerMoves()
      requires Valid()
      modifies this`outstanding, this`wire
      ensures Valid() && (!stale ==> Live(State()) == old(Live(State())))
      ensures |outstanding| + |wire| == old(|outstanding| + |wire|) && old(wire) <= wire
      ensures steady && wire == [] ==> outstanding == {}
    {
      hide Inv, Live, Genuine, AllGenuine, HeldGenuine, Says, Answers;
      var goOn: bool := *;
      if steady {
        goOn := true;
      }
      ghost var live := Live(State());
      while goOn && outstanding != {}
        invariant Valid() && (!stale ==> Live(State()) == live)
        invariant |outstanding| + |wire| == old(|outstanding| + |wire|) && old(wire) <= wire
        invariant steady && wire == [] ==> goOn
        decreases outstanding
      {
        var serial :| serial in outstanding;
        var reply := Says(trust, file, script, requests[serial].value, serial);
        if !stale {
          AnsweredKeeps(trust, file, State(), serial, reply);
        }
        GenuineOne(trust, file, script, requests, serial);
        GenuineMore(trust, file, script, requests, wire, [Frame(serial, reply)]);
        ghost var before := State();
        outstanding := outstanding - {serial};
        wire := wire + [Frame(serial, reply)];
        assert State() == Step(before, Answered(serial, reply));
        goOn := *;
      }
    }

    /** Sends a command under the next id. A send that fails or is abandoned uses its id
        up all the same, and its frame may have gone out whole. */
    method Send(command: Command) returns (r: Result<nat>, ghost wentOut: bool)
      requires Valid()
      modifies this`mid, this`requests, this`outstanding, this`stale
      ensures Valid()
      ensures requests == old(requests) + [if wentOut then Some(command) else None]
      ensures r.Ok? ==> wentOut && r.value == MidOf(|old(requests)|)
      ensures r.Err? ==> r.error == Timeout && !steady
      ensures !stale ==>
                && !old(stale)
                && Live(State()) == old(Live(State())) + (if wentOut then {|old(requests)|} else {})
      ensures stale ==> old(stale) || !Fresh(old(State()), Sent(command))
    {
      hide Inv, Live, Multiplex.Fresh, MidOf, Genuine, AllGenuine, HeldGenuine;
      NextMid(|requests|);
      var id := mid;
      mid := (mid + 1) % MIDS;
      ghost var before := State();
      var failed: bool := *;
      var written: bool := *;
      failed := failed && !steady;
      if failed && !written {
        if !stale {
          BurnedKeeps(trust, file, before);
        }
        GenuineLater(trust, file, script, requests, requests + [None], wire, pendingReplies);
        requests := requests + [None];
        assert State() == Step(before, Burned);
        return Err(Timeout), false;
      }
      if !stale {
        if Fresh(before, Sent(command)) {
          SentKeeps(trust, file, before, command);
        } else {
          if |requests| < MIDS {
            EarlySendsFresh(trust, file, before, command);
          }
          stale := true;
        }
      }
      GenuineLater(trust, file, script, requests, requests + [Some(command)], wire, pendingReplies);
      outstanding := outstanding + {|requests|};
      requests := requests + [Some(command)];
      assert State() == Step(before, Sent(command));
      return if failed then Err(Timeout) else Ok(id), true;
    }

    /** Takes a reply that was put aside. */
    method Take(wanted: nat, ghost serial: nat) returns (f: Frame)
      requires Valid() && wanted in pendingReplies
      requires !stale ==> serial in Live(State()) && MidOf(serial) == wanted
      modifies this`pendingReplies, this`delivered
      ensures Valid() && f == old(pendingReplies)[wanted] && pendingReplies == old(pendingReplies) - {wanted}
      ensures Genuine(trust, file, script, requests, f)
      ensures !stale ==>
                && f.serial == serial && FrameAnswers(trust, file, State(), f)
                && Live(State()) == old(Live(State())) - {serial}
    {
      hide Inv, Live, Genuine;
      ghost var before := State();
      if !stale {
        HandedIsAnswer(trust, file, before, Taken(wanted), serial);
        TakenKeeps(trust, file, before, wanted);
      }
      f := pendingReplies[wanted];
      pendingReplies := pendingReplies - {wanted};
      delivered := delivered + {f.serial};
      assert State() == Step(before, Taken(wanted));
    }

    /** Takes one frame off the wire: the wanted one, one to put aside, or one that
        collides with a reply put aside. */
    method Arrive(wanted: nat, ghost serial: nat) returns (turn: Turn)
      requires Valid() && wire != []
      requires !stale ==> serial in Live(State()) && MidOf(serial) == wanted
      modifies this`pendingReplies, this`wire, this`delivered
      ensures Valid() && wire == old(wire)[1..]
      ensures Genuine(trust, file, script, requests, old(wire)[0])
      ensures
        var f := old(wire)[0];
        if f.Mid() == wanted then turn == Wanted(f) && pendingReplies == old(pendingReplies)
        else
          && turn == (if f.Mid() in old(pendingReplies) then Clash else Aside)
          && pendingReplies == old(pendingReplies)[f.Mid() := f]
      ensures !stale && turn.Wanted? ==>
                && turn.frame.serial == serial && FrameAnswers(trust, file, State(), turn.frame)
                && Live(State()) == old(Live(State())) - {serial}
      ensures !stale && !turn.Wanted? ==> turn.Aside? && Live(State()) == old(Live(State()))
    {
      hide Inv, Live, Genuine, AllGenuine, HeldGenuine;
      ghost var before := State();
      var f := wire[0];
      GenuineHead(trust, file, script, requests, wire, pendingReplies);
      if !stale {
        ArrivedKeeps(trust, file, before, wanted);
        if f.Mid() == wanted {
          HandedIsAnswer(trust, file, before, Arrived(wanted), serial);
        }
      }
      wire := wire[1..];
      if f.Mid() == wanted {
        delivered := delivered + {f.serial};
        assert State() == Step(before, Arrived(wanted));
        return Wanted(f);
      }
      var repeated := f.Mid() in pendingReplies;
      pendingReplies := pendingReplies[f.Mid() := f];
      assert State() == Step(before, Arrived(wanted));
      return if repeated then Clash else Aside;
    }

    /** Waits for one frame, the head of the wire after the server's moves; the wait may
        fail or be abandoned, between frames. */
    method Await(wanted: nat, ghost serial: nat) returns (turn: Turn, ghost taken: seq<Frame>)
      requires Valid() && wanted !in pendingReplies
      requires !stale ==> serial in Live(State()) && MidOf(serial) == wanted
      modifies this`pendingReplies, this`outstanding, this`wire, this`delivered
      ensures Valid()
      ensures OffTheWire(old(wire), taken, wire) && AllGenuine(trust, file, script, requests, taken)
      ensures |taken| == (if turn.GaveUp? then 0 else 1)
      ensures turn.Wanted? ==> taken == [turn.frame]
      ensures turn.GaveUp? ==> pendingReplies == old(pendingReplies)
      ensures turn.GaveUp? && !stale ==> !steady
      ensures turn.Aside? ==> |outstanding| + |wire| < old(|outstanding| + |wire|) && wanted !in pendingReplies
      ensures ScanWire(wanted, old(pendingReplies), taken)
              == (match turn
                  case Wanted(f) => Found(f, pendingReplies, [])
                  case Clash => Repeated(taken[0].Mid(), pendingReplies, [])
                  case _ => Starved(pendingReplies))
      ensures !stale && turn.Wanted? ==>
                && turn.frame.serial == serial && FrameAnswers(trust, file, State(), turn.frame)
                && Live(State()) == old(Live(State())) - {serial}
      ensures !stale && !turn.Wanted? ==> !turn.Clash? && Live(State()) == old(Live(State()))
    {
      hide Inv, Live, Genuine, HeldGenuine, FrameAnswers, ScanWire;
      ServerMoves();
      var interrupted: bool := *;
      if wire == [] || (interrupted && !steady) {
        if !stale {
          LiveComing(trust, file, State(), serial);
        }
        ScanNothing(wanted, pendingReplies);
        return GaveUp, [];
      }
      taken := [wire[0]];
      ScanOne(wanted, pendingReplies, wire[0]);
      assert taken + wire[1..] == wire;
      turn := Arrive(wanted, serial);
    }

    /** Receives the reply for an id: first among the replies put aside, then off
        the wire, putting aside whatever else arrives. The result is the scan of the
        frames that arrived, all of them the server's own, in the order of the wire.
        Unless ids were reused, the reply is the answer to the caller's own request, and
        no duplicate is ever reported. */
    method Recv(wanted: nat, ghost serial: nat) returns (r: Result<Frame>, ghost arrived: seq<Frame>)
      requires Valid() && (!stale ==> serial in Live(State()) && MidOf(serial) == wanted)
      modifies this`pendingReplies, this`outstanding, this`wire, this`delivered
      ensures Valid()
      ensures OffTheWire(old(wire), arrived, wire) && AllGenuine(trust, file, script, requests, arrived)
      ensures
        var scanned := Scan(wanted, old(pendingReplies), arrived);
        && pendingReplies == scanned.pending
        && (r.Ok? <==> scanned.Found?)
        && (r.Ok? ==> r.value == scanned.frame)
        && (r.Err? ==> r.error == if scanned.Repeated? then Duplicate else Timeout)
        && (!scanned.Starved? ==> scanned.rest == [])
      ensures r.Ok? ==> Genuine(trust, file, script, requests, r.value)
      ensures !stale && r.Ok? ==>
                && r.value.serial == serial && FrameAnswers(trust, file, State(), r.value)
                && Live(State()) == old(Live(State())) - {serial}
      ensures !stale && r.Err? ==> r.error == Timeout && !steady && Live(State()) == old(Live(State()))
    {
      hide Inv, Live, Genuine, FrameAnswers, ScanWire, HeldGenuine, OffTheWire;
      arrived := [];
      ghost var live := Live(State());
      if wanted in pendingReplies {
        var f := Take(wanted, serial);
        OffNothing(wire);
        return Ok(f), [];
      }
      ScanNothing(wanted, pendingReplies);
      OffNothing(wire);
      while true
        invariant Valid() && (!stale ==> Live(State()) == live)
        invariant wanted !in pendingReplies
        invariant OffTheWire(old(wire), arrived, wire) && AllGenuine(trust, file, script, requests, arrived)
        invariant ScanWire(wanted, old(pendingReplies), arrived) == Starved(pendingReplies)
        decreases |outstanding| + |wire|
      {
        ghost var between := wire;
        var turn; ghost var taken;
        turn, taken := Await(wanted, serial);
        ScanWireMore(wanted, old(pendingReplies), arrived, taken);
        OffChain(old(wire), arrived, between, taken, wire);
        arrived := arrived + taken;
        match turn {
          case Wanted(f) =>
            assert f in taken;
            return Ok(f), arrived;
          case Aside =>
          case Clash => return Err(Duplicate), arrived;
          case GaveUp => return Err(Timeout), arrived;
        }
      }
    }

    method RecordRead(bytes: nat)
      modifies this`readCalls, this`readBytes
      ensures readCalls == old(readCalls) + 1 && readBytes == old(readBytes) + bytes
    {
      readCalls, readBytes := readCalls + 1, readBytes + bytes;
    }

    /** Receives and parses the reply to one read: the specified read of the frames that
        arrive. Unless ids were reused, the frame handed over answers this request. */
    method RecvRead(wanted: nat, ghost serial: nat, ghost offset: nat, ghost count: nat)
      returns (r: Result<seq<byte>>, ghost arrived: seq<Frame>)
      requires Valid() && serial < |requests| && requests[serial] == Some(ReadCommand(offset, count))
      requires !stale ==> serial in Live(State()) && MidOf(serial) == wanted
      modifies this`pendingReplies, this`outstanding, this`wire, this`delivered, this`readCalls, this`readBytes
      ensures Valid()
      ensures OffTheWire(old(wire), arrived, wire) && AllGenuine(trust, file, script, requests, arrived)
      ensures
        var got := ReadOne(wanted, old(pendingReplies), arrived);
        && got.result == (if r.Ok? then Ok([r.value]) else Err(r.error))
        && pendingReplies == got.pending && got.rest == []
        && readCalls == old(readCalls) + got.calls && readBytes == old(readBytes) + got.bytes
        && (!stale ==> |got.frames| <= 1 && InRequestOrder(got.frames, serial))
      ensures !stale && r != Err(Timeout) ==>
                ParseRead(Says(trust, file, script, ReadCommand(offset, count), serial)) == r
      ensures !stale && steady ==> r != Err(Timeout)
      ensures r != Err(Internal) && (!stale ==> r != Err(Duplicate))
      ensures r.Ok? && !stale ==>
                GoodData(trust, file, offset, count, r.value) && Live(State()) == old(Live(State())) - {serial}
    {
      hide Inv, Live, Scan, AllGenuine, HeldGenuine, Says, OffTheWire;
      var frame;
      frame, arrived := Recv(wanted, serial);
      if frame.Err? {
        return Err(frame.error), arrived;
      }
      r := ParseRead(frame.value.reply);
      if r.Ok? {
        RecordRead(|r.value|);
      }
    }

    /** Reads once. `arrived` is what came in while the reply was awaited; there is none
        when nothing was asked for or the request was not sent. Unless the wait was given
        up or ids were reused, the result and the counters are those of the server's own
        answer to this request. On success nothing stays live that was not live before. */
    method ReadAt(offset: nat, count: nat) returns (r: Result<seq<byte>>, ghost arrived: Option<seq<Frame>>)
      requires Valid()
      modifies this
      ensures Valid() && (stale ==> old(stale) || old(Live(State())) != {}) && (old(stale) ==> stale)
      ensures arrived.None? ==>
                && r == (if count == 0 then Ok([]) else Err(Timeout)) && (count > 0 ==> !steady)
                && pendingReplies == old(pendingReplies) && readCalls == old(readCalls) && readBytes == old(readBytes)
      ensures arrived.Some? ==>
                var got := ReadOne(MidOf(|old(requests)|), old(pendingReplies), arrived.value);
                && OffTheWire(old(wire), arrived.value, wire)
                && AllGenuine(trust, file, script, requests, arrived.value)
                && requests == old(requests) + [Some(ReadCommand(offset, count))]
                && got.result == (if r.Ok? then Ok([r.value]) else Err(r.error))
                && pendingReplies == got.pending && got.rest == []
                && readCalls == old(readCalls) + got.calls && readBytes == old(readBytes) + got.bytes
                && (!stale ==> InRequestOrder(got.frames, |old(requests)|))
      ensures !stale && count > 0 && r != Err(Timeout) ==>
                && arrived.Some?
                && r == ParseRead(Says(trust, file, script, ReadCommand(offset, count), |old(requests)|))
                && readCalls == old(readCalls) + (if r.Ok? then 1 else 0)
                && readBytes == old(readBytes) + (if r.Ok? then |r.value| else 0)
      ensures !stale && steady ==> r != Err(Timeout)
      ensures r != Err(Internal) && (!stale ==> r != Err(Duplicate))
      ensures r.Ok? && !stale ==> (count == 0 && r.value == []) || GoodData(trust, file, offset, count, r.value)
      ensures r.Ok? && !stale ==> Live(State()) == old(Live(State()))
      ensures r.Ok? ==>
                readCalls == old(readCalls) + (if count > 0 then 1 else 0) && readBytes == old(readBytes) + |r.value|
      ensures |requests| <= |old(requests)| + 1 && old(requests) <= requests
    {
      hide Inv, Live, InRequestOrder, GoodData, Multiplex.Fresh, MidOf, Scan, Honest, AllGenuine, Says, OffTheWire;
      if count == 0 {
        return Ok([]), None;
      }
      ghost var serial, live := |requests|, Live(State());
      if !stale {
        BeforeSend(trust, file, State(), ReadCommand(offset, count));
      }
      var sent, _ := Send(ReadCommand(offset, count));
      if sent.Err? {
        return Err(sent.error), None;
      }
      ghost var frames;
      r, frames := RecvRead(sent.value, serial, offset, count);
      arrived := Some(frames);
    }

    /** One request of a batch that began at `base` with these requests live. */
    method SendRead(req: StreamSpec.Request, ghost base: nat, ghost live: set<nat>) returns (r: Result<nat>)
      requires Valid() && base <= |requests| < base + MIDS
      requires !stale ==> Live(State()) == InFlight(live, base, |requests|)
      modifies this`mid, this`requests, this`outstanding, this`stale
      ensures Valid() && (old(stale) ==> stale) && (stale ==> old(stale) || live != {})
      ensures old(requests) <= requests && |requests| <= |old(requests)| + 1
      ensures r.Err? ==> (r.error == Timeout && !steady) || (r.error == Internal && req.len >= U32_LIMIT)
      ensures r.Ok? ==>
                && requests == old(requests) + [Some(ReadCommand(req.offset, req.len))]
                && r.value == MidOf(|old(requests)|)
                && (!stale ==> Live(State()) == InFlight(live, base, |requests|))
    {
      hide Inv, Live, InFlight, MidOf, Valid, Multiplex.Fresh;
      if req.len >= U32_LIMIT {
        return Err(Internal);
      }
      if !stale && live == {} {
        BatchFresh(State(), base, ReadCommand(req.offset, req.len));
      }
      BatchGrows(live, base, |requests|);
      ghost var wentOut;
      r, wentOut := Send(ReadCommand(req.offset, req.len));
    }

    /** The first half of a batch: every request goes out before any reply is awaited. */
    method SendAll(reqs: seq<StreamSpec.Request>) returns (r: Result<seq<nat>>)
      requires Valid() && |reqs| <= MIDS
      modifies this`mid, this`requests, this`outstanding, this`stale
      ensures Valid() && (stale ==> old(stale) || old(Live(State())) != {}) && (old(stale) ==> stale)
      ensures r.Ok? ==>
                && |r.value| == |reqs| && |requests| == |old(requests)| + |reqs|
                && BatchSent(requests, r.value, reqs, |old(requests)|)
      ensures r.Err? ==> (r.error == Timeout && !steady) || r.error == Internal
      ensures r.Err? && r.error == Internal ==> exists i :: 0 <= i < |reqs| && reqs[i].len >= U32_LIMIT
      ensures r.Ok? && !stale ==>
                Live(State()) == InFlight(old(Live(State())), |old(requests)|, |old(requests)| + |reqs|)
      ensures |requests| <= |old(requests)| + |reqs| && old(requests) <= requests
    {
      ghost var live, base := Live(State()), |requests|;
      BatchEmpty(live, base);
      hide Inv, Live, InFlight, BatchSent, MidOf, Valid, Multiplex.Fresh;
      var inFlight: seq<nat> := [];
      for i := 0 to |reqs|
        invariant Valid() && (old(stale) ==> stale) && (stale ==> old(stale) || live != {})
        invariant |inFlight| == i && |requests| == base + i && old(requests) <= requests
        invariant BatchSent(requests, inFlight, reqs, base)
        invariant !stale ==> Live(State()) == InFlight(live, base, base + i)
      {
        ghost var before := requests;
        var sent := SendRead(reqs[i], base, live);
        if sent.Err? {
          return Err(sent.error);
        }
        BatchSentPush(before, inFlight, reqs, base, sent.value);
        inFlight := inFlight + [sent.value];
      }
      return Ok(inFlight);
    }

    /** The replies of a batch, received in request order: those of the specified batch
        for the frames that arrive. */
    method RecvEach(reqs: seq<StreamSpec.Request>, inFlight: seq<nat>, ghost base: nat, ghost live: set<nat>)
      returns (r: Result<seq<seq<byte>>>, ghost arrived: seq<Frame>)
      requires Valid() && |inFlight| == |reqs| && BatchSent(requests, inFlight, reqs, base)
      requires !stale ==> Live(State()) == InFlight(live, base, base + |reqs|) && forall s :: s in live ==> s < base
      modifies this`pendingReplies, this`outstanding, this`wire, this`delivered, this`readCalls, this`readBytes
      ensures Valid()
      ensures OffTheWire(old(wire), arrived, wire) && AllGenuine(trust, file, script, requests, arrived)
      ensures
        var got := ReadAll(inFlight, old(pendingReplies), arrived);
        && got.result == r && pendingReplies == got.pending && got.rest == []
        && readCalls == old(readCalls) + got.calls && readBytes == old(readBytes) + got.bytes
        && (!stale ==> InRequestOrder(got.frames, base))
      ensures !stale && steady ==> r != Err(Timeout)
      ensures r != Err(Internal) && (!stale ==> r != Err(Duplicate))
      ensures r.Ok? && !stale ==> Live(State()) == live && AllGood(trust, file, reqs, r.value)
    {
      hide Inv, Live, GoodSoFar, GoodData, Valid, InFlight, BatchSent, MidOf, ReadOne, InRequestOrder, AllGenuine,
           Says, ParseRead, ReadAll, OffTheWire;
      var chunks: seq<seq<byte>> := [];
      arrived := [];
      NothingInOrder(base);
      OffNothing(wire);
      NothingGenuine(trust, file, script, requests);
      GoodNothing(trust, file, reqs);
      ReadNothing(pendingReplies);
      assert inFlight[..0] == [];
      for i := 0 to |inFlight|
        invariant Valid() && |chunks| == i
        invariant !stale ==> Live(State()) == InFlight(live, base + i, base + |reqs|)
        invariant !stale ==> GoodSoFar(trust, file, reqs, chunks)
        invariant OffTheWire(old(wire), arrived, wire) && AllGenuine(trust, file, script, requests, arrived)
        invariant
          var got := ReadAll(inFlight[..i], old(pendingReplies), arrived);
          && got.result == Ok(chunks) && pendingReplies == got.pending && got.rest == []
          && readCalls == old(readCalls) + got.calls && readBytes == old(readBytes) + got.bytes
          && (!stale ==> |got.frames| == i && InRequestOrder(got.frames, base))
      {
        if !stale {
          BatchShrinks(live, base + i, base + |reqs|);
        }
        BatchSentAt(requests, inFlight, reqs, base, i);
        ghost var got := ReadAll(inFlight[..i], old(pendingReplies), arrived);
        ghost var between := wire;
        var data; ghost var more;
        data, more := RecvRead(inFlight[i], base + i, reqs[i].offset, reqs[i].len);
        ReadAllStep(inFlight, i, old(pendingReplies), arrived, more);
        if !stale {
          InOrderMore(got.frames, ReadOne(inFlight[i], got.pending, more).frames, base);
        }
        OffChain(old(wire), arrived, between, more, wire);
        GenuineMore(trust, file, script, requests, arrived, more);
        arrived := arrived + more;
        if data.Err? {
          return Err(data.error), arrived;
        }
        if !stale {
          GoodPush(trust, file, reqs, chunks, data.value);
        }
        chunks := chunks + [data.value];
      }
      BatchEmpty(live, base + |reqs|);
      assert inFlight[..|inFlight|] == inFlight;
      return Ok(chunks), arrived;
    }

    lemma {:induction false} ReadyForBatch(inFlight: seq<nat>, reqs: seq<StreamSpec.Request>, base: nat)
      requires Valid() && |inFlight| == |reqs| && BatchSent(requests, inFlight, reqs, base)
      ensures HeldGenuine(trust, file, script, requests, pendingReplies)
      ensures BatchRequested(requests, reqs, base) && inFlight == BatchMids(base, |reqs|)
    {
      MidsOfBatch(requests, inFlight, reqs, base);
    }

    /** The second half: the replies are received in request order, however they arrive.
        Unless the wait was given up or ids were reused, the chunks or the first error,
        and the counters, are those of the server's own answers to the batch. */
    method RecvAll(reqs: seq<StreamSpec.Request>, inFlight: seq<nat>, ghost base: nat, ghost live: set<nat>)
      returns (r: Result<seq<seq<byte>>>, ghost arrived: seq<Frame>)
      requires Valid() && |inFlight| == |reqs| && BatchSent(requests, inFlight, reqs, base)
      requires !stale ==> Live(State()) == InFlight(live, base, base + |reqs|) && forall s :: s in live ==> s < base
      modifies this`pendingReplies, this`outstanding, this`wire, this`delivered, this`readCalls, this`readBytes
      ensures Valid()
      ensures OffTheWire(old(wire), arrived, wire) && AllGenuine(trust, file, script, requests, arrived)
      ensures
        var got := ReadAll(inFlight, old(pendingReplies), arrived);
        && got.result == r && pendingReplies == got.pending && got.rest == []
        && readCalls == old(readCalls) + got.calls && readBytes == old(readBytes) + got.bytes
        && (!stale ==> InRequestOrder(got.frames, base))
      ensures !stale && r != Err(Timeout) ==>
                Outcome(BatchReplies(trust, file, script, reqs, base))
                == (r, readCalls - old(readCalls), readBytes - old(readBytes))
      ensures !stale && steady ==> r != Err(Timeout)
      ensures r != Err(Internal) && (!stale ==> r != Err(Duplicate))
      ensures r.Ok? && !stale ==> Live(State()) == live && AllGood(trust, file, reqs, r.value)
    {
      hide Inv, Live, AllGood, Valid, InFlight, BatchSent, BatchRequested, InRequestOrder, AllGenuine, HeldGenuine,
           Outcome, BatchReplies, BatchMids, ReadAll, OffTheWire;
      ReadyForBatch(inFlight, reqs, base);
      r, arrived := RecvEach(reqs, inFlight, base, live);
      if !stale && r != Err(Timeout) {
        ToldByServer(trust, file, script, requests, reqs, base, old(pendingReplies), arrived);
      }
    }

    /** Sends every request of a batch before it receives any reply, and receives
        the replies in request order. `arrived` is what came in while replies were
        awaited; there is none when nothing was asked for or not all was sent. Unless the
        call was given up or ids were reused, the chunks or the first error, and the
        counters, are those of the server's own answers to these requests. On success
        no id of the batch stays live. A batch begun with nothing live never reuses an id. */
    method ReadAtPipelined(reqs: seq<StreamSpec.Request>)
      returns (r: Result<seq<seq<byte>>>, ghost arrived: Option<seq<Frame>>)
      requires Valid() && |reqs| <= MIDS
      requires forall i :: 0 <= i < |reqs| ==> reqs[i].len > 0
      modifies this
      ensures Valid() && (stale ==> old(stale) || old(Live(State())) != {}) && (old(stale) ==> stale)
      ensures arrived.None? ==>
                && (if reqs == [] then r == Ok([]) else (r == Err(Timeout) && !steady) || r == Err(Internal))
                && pendingReplies == old(pendingReplies) && readCalls == old(readCalls) && readBytes == old(readBytes)
      ensures arrived.Some? ==>
                var got := ReadAll(BatchMids(|old(requests)|, |reqs|), old(pendingReplies), arrived.value);
                && OffTheWire(old(wire), arrived.value, wire)
                && AllGenuine(trust, file, script, requests, arrived.value)
                && got.result == r && pendingReplies == got.pending && got.rest == []
                && readCalls == old(readCalls) + got.calls && readBytes == old(readBytes) + got.bytes
                && (!stale ==> InRequestOrder(got.frames, |old(requests)|))
      ensures !stale && r != Err(Timeout) && r != Err(Internal) ==>
                Outcome(BatchReplies(trust, file, script, reqs, |old(requests)|))
                == (r, readCalls - old(readCalls), readBytes - old(readBytes))
      ensures !stale && steady ==> r != Err(Timeout)
      ensures r == Err(Internal) ==> exists i :: 0 <= i < |reqs| && reqs[i].len >= U32_LIMIT
      ensures !stale ==> r != Err(Duplicate)
      ensures r.Ok? ==> |r.value| == |reqs|
      ensures r.Ok? && !stale ==> Live(State()) == old(Live(State())) && AllGood(trust, file, reqs, r.value)
      ensures r.Ok? ==> readCalls == old(readCalls) + |reqs| && readBytes == old(readBytes) + |Flatten(r.value)|
      ensures |requests| <= |old(requests)| + |reqs| && old(requests) <= requests
    {
      hide Inv, Live, InFlight, BatchSent, ReadAll, ReadOne, InRequestOrder, AllGood, GoodData, Flatten, MidOf,
           BatchMids, AllGenuine, Honest, Outcome, BatchReplies, Says, OffTheWire;
      if reqs == [] {
        NoneGood(trust, file, reqs);
        NoReplies(trust, file, script, reqs, |requests|);
        return Ok([]), None;
      }
      if |reqs| == 1 {
        if reqs[0].len >= U32_LIMIT {
          return Err(Internal), None;
        }
        var chunk;
        chunk, arrived := ReadAt(reqs[0].offset, reqs[0].len);
        if arrived.Some? {
          OneMid(|old(requests)|);
          ReadAllOfOne(MidOf(|old(requests)|), old(pendingReplies), arrived.value);
        }
        OneReply(trust, file, script, reqs, |old(requests)|);
        if chunk.Err? {
          return Err(chunk.error), arrived;
        }
        OneGood(trust, file, reqs, chunk.value);
        return Ok([chunk.value]), arrived;
      }
      ghost var live, base := Live(State()), |requests|;
      if !stale {
        LiveBelow(trust, file, State());
      }
      var inFlight := SendAll(reqs);
      if inFlight.Err? {
        return Err(inFlight.error), None;
      }
      MidsOfBatch(requests, inFlight.value, reqs, base);
      ghost var frames;
      r, frames := RecvAll(reqs, inFlight.value, base, live);
      arrived := Some(frames);
      if r.Ok? {
        ReadAllCounts(inFlight.value, old(pendingReplies), frames);
      }
    }
  }

  /** A session that is serving has a server that tells the truth and has reused no live id. */
  lemma {:induction false} ServingTrusts(cifs: Cifs)
    ensures cifs.Serving() ==> (cifs.trust.Prefix? || cifs.trust.Exact?) && !cifs.stale
  {
  }

  /** One read. Of a session that is serving it gives some of the bytes asked for, if the file
      has them, and the session is serving still. */
  method ServedRead(cifs: Cifs, offset: nat, count: nat) returns (r: Result<seq<byte>>)
    requires cifs.Valid() && count > 0
    modifies cifs
    ensures cifs.Valid() && (old(cifs.stale) ==> cifs.stale)
    ensures r.Ok? && !cifs.stale ==> GoodData(cifs.trust, cifs.file, offset, count, r.value)
    ensures r.Ok? ==>
              cifs.readCalls == old(cifs.readCalls) + 1 && cifs.readBytes == old(cifs.readBytes) + |r.value|
    ensures old(cifs.Serving()) && offset + count <= |cifs.file| ==> cifs.Serving() && r.Ok? && r.value != []
  {
    hide Cifs.Valid, Cifs.State, Live, Willing, Says, ReadOne, AllGenuine, InRequestOrder, OffTheWire, MidOf, GoodData;
    WillingRead(cifs.trust, cifs.file, cifs.script, offset, count, |cifs.requests|);
    ghost var arrived;
    r, arrived := cifs.ReadAt(offset, count);
  }

  /** A batch within the file, sent to a session that is serving: it succeeds, every chunk is
      good, and the session is serving still, however many ids it has used. */
  method ServedBatch(cifs: Cifs, reqs: seq<StreamSpec.Request>) returns (r: Result<seq<seq<byte>>>)
    requires cifs.Valid() && |reqs| <= MIDS && forall i :: 0 <= i < |reqs| ==> reqs[i].len > 0
    modifies cifs
    ensures cifs.Valid() && (old(cifs.stale) ==> cifs.stale)
    ensures r.Ok? ==> |r.value| == |reqs|
    ensures r.Ok? && !cifs.stale ==> AllGood(cifs.trust, cifs.file, reqs, r.value)
    ensures old(cifs.Serving()) && WithinFile(cifs.file, reqs) ==> cifs.Serving() && r.Ok?
  {
    hide Cifs.Valid, Cifs.State, Live, Willing, AllGood, BatchReplies, Outcome, ReadAll, AllGenuine, BatchMids,
         InRequestOrder, OffTheWire;
    WillingBatch(cifs.trust, cifs.file, cifs.script, reqs, |cifs.requests|);
    ghost var arrived;
    r, arrived := cifs.ReadAtPipelined(reqs);
  }

  /** One read, by the server's own answer. */
  method ReadRequest(cifs: Cifs, req: StreamSpec.Request) returns (r: Result<seq<byte>>)
    requires cifs.Valid() && req.len > 0
    modifies cifs
    ensures cifs.Valid() && (old(cifs.stale) ==> cifs.stale)
    ensures r.Ok? ==> |cifs.requests| == old(|cifs.requests|) + 1
    ensures !cifs.stale && cifs.steady ==> r != Err(Timeout)
    ensures !cifs.stale && r != Err(Timeout) ==>
              && r == ParseRead(Says(cifs.trust, cifs.file, cifs.script, ReadCommand(req.offset, req.len),
                                     old(|cifs.requests|)))
              && cifs.readCalls == old(cifs.readCalls) + (if r.Ok? then 1 else 0)
              && cifs.readBytes == old(cifs.readBytes) + (if r.Ok? then |r.value| else 0)
  {
    hide Cifs.Valid, ReadOne, ParseRead, Says, AllGenuine, Live, GoodData, MidOf, InRequestOrder, OffTheWire,
         Cifs.State;
    ghost var arrived;
    r, arrived := cifs.ReadAt(req.offset, req.len);
  }

  /** The first i replies all carried data: these chunks. */
  predicate ToldSoFar(replies: seq<Reply>, i: nat, chunks: seq<seq<byte>>, calls: nat, bytes: nat) {
    i <= |replies| && Outcome(replies[..i]) == (Ok(chunks), calls, bytes)
  }

  lemma {:induction false} ToldAll(replies: seq<Reply>, chunks: seq<seq<byte>>, calls: nat, bytes: nat)
    requires ToldSoFar(replies, |replies|, chunks, calls, bytes)
    ensures Outcome(replies) == (Ok(chunks), calls, bytes)
  {
    assert replies[..|replies|] == replies;
  }

  lemma {:induction false} ToldNothing(replies: seq<Reply>)
    ensures ToldSoFar(replies, 0, [], 0, 0)
  {
    assert replies[..0] == [];
  }

  lemma {:induction false} OutcomeStep(replies: seq<Reply>, i: nat, chunks: seq<seq<byte>>, calls: nat, bytes: nat,
                                       chunk: Result<seq<byte>>)
    requires i < |replies| && ToldSoFar(replies, i, chunks, calls, bytes) && chunk == ParseRead(replies[i])
    ensures chunk.Ok? ==> ToldSoFar(replies, i + 1, chunks + [chunk.value], calls + 1, bytes + |chunk.value|)
    ensures chunk.Err? ==> Outcome(replies) == (Err(chunk.error), calls, bytes)
  {
    hide ParseRead, Outcome;
    OutcomeMore(replies, i);
  }

  /** The same reads, one at a time. */
  method ReadOneByOne(cifs: Cifs, reqs: seq<StreamSpec.Request>) returns (r: Result<seq<seq<byte>>>)
    requires cifs.Valid()
    requires forall i :: 0 <= i < |reqs| ==> reqs[i].len > 0
    modifies cifs
    ensures cifs.Valid() && (old(cifs.stale) ==> cifs.stale)
    ensures !cifs.stale && cifs.steady ==> r != Err(Timeout)
    ensures !cifs.stale && r != Err(Timeout) ==>
              Outcome(BatchReplies(cifs.trust, cifs.file, cifs.script, reqs, old(|cifs.requests|)))
              == (r, cifs.readCalls - old(cifs.readCalls), cifs.readBytes - old(cifs.readBytes))
  {
    ghost var base, calls, bytes := |cifs.requests|, 0, 0;
    ghost var replies := BatchReplies(cifs.trust, cifs.file, cifs.script, reqs, base);
    hide Cifs.Valid, BatchReplies, Outcome, ParseRead, Says, ToldSoFar;
    var chunks: seq<seq<byte>> := [];
    ToldNothing(replies);
    for i := 0 to |reqs|
      invariant cifs.Valid() && (old(cifs.stale) ==> cifs.stale)
      invariant |cifs.requests| == base + i && calls >= 0 && bytes >= 0
      invariant !cifs.stale ==> ToldSoFar(replies, i, chunks, calls, bytes)
      invariant !cifs.stale ==>
          cifs.readCalls == old(cifs.readCalls) + calls && cifs.readBytes == old(cifs.readBytes) + bytes
    {
      var chunk := ReadRequest(cifs, reqs[i]);
      BatchReplyAt(cifs.trust, cifs.file, cifs.script, reqs, base, i);
      if !cifs.stale && chunk != Err(Timeout) {
        OutcomeStep(replies, i, chunks, calls, bytes, chunk);
      }
      if chunk.Err? {
        return Err(chunk.error);
      }
      chunks, calls, bytes := chunks + [chunk.value], calls + 1, bytes + |chunk.value|;
    }
    if !cifs.stale {
      ToldAll(replies, chunks, calls, bytes);
    }
    return Ok(chunks);
  }

  /** A pipelined batch and single reads, on two sessions that have sent as many requests
      and face the same server: whatever the orders of arrival and whatever stale replies
      come between, unless one of them is given up or reuses an id, they give the same
      chunks or the same first error and advance the counters alike. None is given up on
      a steady connection. */
  method BatchEqualsSingleReads(a: Cifs, b: Cifs, reqs: seq<StreamSpec.Request>)
    returns (batch: Result<seq<seq<byte>>>, single: Result<seq<seq<byte>>>)
    requires a != b && a.Valid() && b.Valid()
    requires a.trust == b.trust && a.file == b.file && a.script == b.script && |a.requests| == |b.requests|
    requires |reqs| <= MIDS && forall i :: 0 <= i < |reqs| ==> 0 < reqs[i].len < U32_LIMIT
    modifies a, b
    ensures a.Valid() && b.Valid()
    ensures (!a.stale && a.steady ==> batch != Err(Timeout)) && (!b.stale && b.steady ==> single != Err(Timeout))
    ensures !a.stale && !b.stale && batch != Err(Timeout) && single != Err(Timeout) ==>
              && batch == single
              && a.readCalls - old(a.readCalls) == b.readCalls - old(b.readCalls)
              && a.readBytes - old(a.readBytes) == b.readBytes - old(b.readBytes)
  {
    hide Cifs.Valid, BatchReplies, Outcome, ReadAll, AllGenuine, Live, AllGood, Flatten, BatchMids, InRequestOrder,
         OffTheWire, Cifs.State;
    ghost var arrived;
    batch, arrived := a.ReadAtPipelined(reqs);
    single := ReadOneByOne(b, reqs);
  }
}
