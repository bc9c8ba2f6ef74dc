/** Matching replies to requests by multiplex id, over every order of sending,
    answering, arriving and receiving. */
module Multiplex {
  import opened Base

  /** A read of the open file, or any other command that has one reply. */
  datatype Command = ReadCommand(offset: nat, len: nat) | OtherCommand

  datatype Reply = Data(bytes: seq<byte>) | Status | Misc

  const MIDS: nat := U16_LIMIT

  /** The counter is a u16 that wraps around. */
  function MidOf(serial: nat): (mid: nat)
    ensures mid < MIDS
  {
    serial % MIDS
  }

  /** Every 65536th request gets the same id, and the first 65536 each their own. */
  lemma {:induction false} SameMidIff(a: nat, b: nat)
    ensures MidOf(a) == MidOf(b) <==> (a - b) % 65536 == 0
    ensures a < 65536 ==> MidOf(a) == a
  {
  }

  /** `serial` numbers the request a frame answers. The client never sees it: all
      it reads off a frame is the 16-bit multiplex id. */
  datatype Frame = Frame(serial: nat, reply: Reply) {
    function Mid(): nat { MidOf(serial) }
  }

  /** How far the server is trusted: not at all, to send no more than was asked
      for, to send a non-empty part of the file's true bytes, to send them all. */
  datatype Trust = Anything | NoMore | Prefix | Exact

  predicate GoodData(trust: Trust, file: seq<byte>, offset: nat, len: nat, data: seq<byte>) {
    var available := Min(len, Monus(|file|, offset));
    && (trust != Anything ==> |data| <= len)
    && (trust.Prefix? || trust.Exact? ==>
          && |data| <= available
          && (available > 0 ==> data != [])
          && (data != [] ==> data == file[offset..offset + |data|]))
    && (trust.Exact? ==> |data| == available)
  }

  /** An error status may answer anything. */
  predicate Answers(trust: Trust, file: seq<byte>, command: Command, reply: Reply) {
    || reply.Status?
    || (command.OtherCommand? && reply.Misc?)
    || (command.ReadCommand? && reply.Data? && GoodData(trust, file, command.offset, command.len, reply.bytes))
  }

  /** A range of serial numbers. */
  function Serials(from: nat, to: nat): (serials: set<nat>)
    ensures forall s :: s in serials <==> from <= s < to
    decreases Monus(to, from)
  {
    if from >= to then {} else {from} + Serials(from + 1, to)
  }

  // ----- The client and the server as one state machine -----

  /** `requests` holds every request by serial number, None for an id whose frame
      was never written. `pending` is the client's map of early replies. */
  datatype Net = Net(
    requests: seq<Option<Command>>,
    outstanding: set<nat>,
    wire: seq<Frame>,
    pending: map<nat, Frame>,
    delivered: set<nat>)

  datatype Event =
    | Sent(command: Command)
    | Burned
    | Answered(serial: nat, reply: Reply)
    | Arrived(wanted: nat)
    | Taken(mid: nat)

  const IDLE: Net := Net([], {}, [], map[], {})

  predicate Enabled(trust: Trust, file: seq<byte>, n: Net, e: Event) {
    match e
    case Sent(_) => true
    case Burned => true
    case Answered(s, r) =>
      s in n.outstanding && s < |n.requests| && n.requests[s].Some? && Answers(trust, file, n.requests[s].value, r)
    case Arrived(_) => n.wire != []
    case Taken(mid) => mid in n.pending
  }

  function Step(n: Net, e: Event): Net {
    match e
    case Sent(command) => n.(requests := n.requests + [Some(command)], outstanding := n.outstanding + {|n.requests|})
    case Burned => n.(requests := n.requests + [None])
    case Answered(s, r) => n.(outstanding := n.outstanding - {s}, wire := n.wire + [Frame(s, r)])
    case Arrived(wanted) =>
      if n.wire == [] then n
      else
        var f := n.wire[0];
        var m := n.(wire := n.wire[1..]);
        if f.Mid() == wanted then m.(delivered := n.delivered + {f.serial})
        else m.(pending := n.pending[f.Mid() := f])
    case Taken(mid) =>
      if mid !in n.pending then n
      else n.(pending := n.pending - {mid}, delivered := n.delivered + {n.pending[mid].serial})
  }

  /** The arrival that `recv` reports as a duplicate. */
  predicate Collides(n: Net, e: Event) {
    e.Arrived? && n.wire != [] && n.wire[0].Mid() != e.wanted && n.wire[0].Mid() in n.pending
  }

  function OnWire(n: Net): set<nat> { set f | f in n.wire :: f.serial }

  function Held(n: Net): set<nat> { set mid | mid in n.pending :: n.pending[mid].serial }

  /** Requests whose reply the client has not yet taken. */
  function Live(n: Net): set<nat> { n.outstanding + OnWire(n) + Held(n) }

  function AllSent(n: Net): set<nat> { set s: nat | s < |n.requests| && n.requests[s].Some? }

  /** A send is fresh when no live request carries the id it is about to use. */
  predicate Fresh(n: Net, e: Event) {
    e.Sent? ==> forall s :: s in Live(n) ==> MidOf(s) != MidOf(|n.requests|)
  }

  /** Every request sent is in exactly one of four places. */
  predicate Partition(n: Net) {
    && AllSent(n) == n.outstanding + OnWire(n) + Held(n) + n.delivered
    && n.outstanding !! OnWire(n) && n.outstanding !! Held(n) && n.outstanding !! n.delivered
    && OnWire(n) !! Held(n) && OnWire(n) !! n.delivered && Held(n) !! n.delivered
  }

  predicate DistinctFrames(wire: seq<Frame>) {
    forall i, j :: 0 <= i < j < |wire| ==> wire[i].serial != wire[j].serial
  }

  predicate FrameAnswers(trust: Trust, file: seq<byte>, n: Net, f: Frame) {
    f.serial < |n.requests| && n.requests[f.serial].Some? && Answers(trust, file, n.requests[f.serial].value, f.reply)
  }

  ghost predicate Inv(trust: Trust, file: seq<byte>, n: Net) {
    && Partition(n)
    && DistinctFrames(n.wire)
    && (forall mid :: mid in n.pending ==> n.pending[mid].Mid() == mid && FrameAnswers(trust, file, n, n.pending[mid]))
    && (forall f :: f in n.wire ==> FrameAnswers(trust, file, n, f))
    && (forall a, b :: a in Live(n) && b in Live(n) && MidOf(a) == MidOf(b) ==> a == b)
  }

  lemma {:induction false} SentKeeps(trust: Trust, file: seq<byte>, n: Net, command: Command)
    requires Inv(trust, file, n) && Fresh(n, Sent(command))
    ensures Inv(trust, file, Step(n, Sent(command)))
    ensures Live(Step(n, Sent(command))) == Live(n) + {|n.requests|}
  {
    var n' := Step(n, Sent(command));
    assert OnWire(n') == OnWire(n) && Held(n') == Held(n);
    assert AllSent(n') == AllSent(n) + {|n.requests|};
    assert |n.requests| !in AllSent(n);
  }

  lemma {:induction false} BurnedKeeps(trust: Trust, file: seq<byte>, n: Net)
    requires Inv(trust, file, n)
    ensures Inv(trust, file, Step(n, Burned))
    ensures Live(Step(n, Burned)) == Live(n)
  {
    var n' := Step(n, Burned);
    assert OnWire(n') == OnWire(n) && Held(n') == Held(n);
    assert AllSent(n') == AllSent(n);
  }

  lemma {:induction false} AnsweredKeeps(trust: Trust, file: seq<byte>, n: Net, s: nat, r: Reply)
    requires Inv(trust, file, n) && Enabled(trust, file, n, Answered(s, r))
    ensures Inv(trust, file, Step(n, Answered(s, r)))
    ensures Live(Step(n, Answered(s, r))) == Live(n)
  {
    var n' := Step(n, Answered(s, r));
    assert Frame(s, r) in n'.wire by { assert n'.wire[|n.wire|] == Frame(s, r); }
    assert OnWire(n') == OnWire(n) + {s};
    assert Held(n') == Held(n);
    forall i | 0 <= i < |n.wire| ensures n.wire[i].serial != s {
      assert n.wire[i].serial in OnWire(n);
    }
  }

  lemma {:induction false} HeadOfWire(trust: Trust, file: seq<byte>, n: Net)
    requires Inv(trust, file, n) && n.wire != []
    ensures FrameAnswers(trust, file, n, n.wire[0]) && n.wire[0].serial in OnWire(n)
    ensures n.wire[0].Mid() !in n.pending
    ensures OnWire(n.(wire := n.wire[1..])) == OnWire(n) - {n.wire[0].serial}
    ensures DistinctFrames(n.wire[1..]) && forall g :: g in n.wire[1..] ==> g in n.wire
  {
    var f := n.wire[0];
    assert f in n.wire;
    assert forall mid :: mid in n.pending ==> n.pending[mid].serial in Held(n);
    assert n.wire == [f] + n.wire[1..];
    forall g | g in n.wire[1..] ensures g.serial != f.serial {
      var i :| 0 <= i < |n.wire[1..]| && n.wire[1..][i] == g;
      assert n.wire[i + 1] == g;
    }
  }

  lemma {:induction false} StashKeeps(trust: Trust, file: seq<byte>, n: Net, wanted: nat)
    requires Inv(trust, file, n) && n.wire != [] && n.wire[0].Mid() != wanted
    ensures Inv(trust, file, Step(n, Arrived(wanted)))
    ensures Live(Step(n, Arrived(wanted))) == Live(n)
  {
    HeadOfWire(trust, file, n);
    var f := n.wire[0];
    var n' := Step(n, Arrived(wanted));
    assert Held(n') == Held(n) + {f.serial} by {
      assert n'.pending[f.Mid()].serial == f.serial;
      forall m | m in n.pending ensures n'.pending[m] == n.pending[m] {}
    }
    assert AllSent(n') == AllSent(n);
  }

  lemma {:induction false} MatchKeeps(trust: Trust, file: seq<byte>, n: Net, wanted: nat)
    requires Inv(trust, file, n) && n.wire != [] && n.wire[0].Mid() == wanted
    ensures Inv(trust, file, Step(n, Arrived(wanted)))
    ensures Live(Step(n, Arrived(wanted))) == Live(n) - {n.wire[0].serial}
  {
    HeadOfWire(trust, file, n);
    var n' := Step(n, Arrived(wanted));
    assert Held(n') == Held(n);
    assert AllSent(n') == AllSent(n);
  }

  /** The head of the wire is either what was wanted or is put aside; it never collides. */
  lemma {:induction false} ArrivedKeeps(trust: Trust, file: seq<byte>, n: Net, wanted: nat)
    requires Inv(trust, file, n) && n.wire != []
    ensures !Collides(n, Arrived(wanted))
    ensures Inv(trust, file, Step(n, Arrived(wanted)))
    ensures FrameAnswers(trust, file, n, n.wire[0]) && n.wire[0].serial in Live(n)
    ensures Live(Step(n, Arrived(wanted)))
         == if n.wire[0].Mid() == wanted then Live(n) - {n.wire[0].serial} else Live(n)
  {
    HeadOfWire(trust, file, n);
    if n.wire[0].Mid() == wanted {
      MatchKeeps(trust, file, n, wanted);
    } else {
      StashKeeps(trust, file, n, wanted);
    }
  }

  lemma {:induction false} TakenKeeps(trust: Trust, file: seq<byte>, n: Net, mid: nat)
    requires Inv(trust, file, n) && mid in n.pending
    ensures Inv(trust, file, Step(n, Taken(mid)))
    ensures FrameAnswers(trust, file, n, n.pending[mid]) && n.pending[mid].serial in Live(n)
    ensures Live(Step(n, Taken(mid))) == Live(n) - {n.pending[mid].serial}
  {
    var s := n.pending[mid].serial;
    var n' := Step(n, Taken(mid));
    assert s in Held(n);
    assert OnWire(n') == OnWire(n);
    assert Held(n') == Held(n) - {s} by {
      forall m | m in n.pending && m != mid ensures n.pending[m].serial != s {
        assert n.pending[m].Mid() == m && n.pending[mid].Mid() == mid;
      }
      forall m | m in n'.pending ensures n'.pending[m] == n.pending[m] && m != mid {}
      forall x | x in Held(n) - {s} ensures x in Held(n') {
        var m :| m in n.pending && n.pending[m].serial == x;
        assert m in n'.pending && n'.pending[m].serial == x;
      }
    }
    assert AllSent(n') == AllSent(n);
  }

  lemma {:induction false} StepSafe(trust: Trust, file: seq<byte>, n: Net, e: Event)
    requires Inv(trust, file, n) && Enabled(trust, file, n, e) && Fresh(n, e)
    ensures Inv(trust, file, Step(n, e)) && !Collides(n, e)
  {
    match e
    case Sent(command) => SentKeeps(trust, file, n, command);
    case Burned => BurnedKeeps(trust, file, n);
    case Answered(s, r) => AnsweredKeeps(trust, file, n, s, r);
    case Arrived(wanted) => ArrivedKeeps(trust, file, n, wanted);
    case Taken(mid) => TakenKeeps(trust, file, n, mid);
  }

  /** The frame a step hands to the caller, if any. */
  function Handed(n: Net, e: Event): Option<Frame> {
    match e
    case Arrived(wanted) => if n.wire != [] && n.wire[0].Mid() == wanted then Some(n.wire[0]) else None
    case Taken(mid) => if mid in n.pending then Some(n.pending[mid]) else None
    case _ => None
  }

  /** A caller waiting for a live request is handed the server's answer to that
      request and to no other. */
  lemma {:induction false} HandedIsAnswer(trust: Trust, file: seq<byte>, n: Net, e: Event, serial: nat)
    requires Inv(trust, file, n) && Enabled(trust, file, n, e)
    requires e == Arrived(MidOf(serial)) || e == Taken(MidOf(serial))
    requires serial in Live(n) && Handed(n, e).Some?
    ensures Handed(n, e).value.serial == serial
    ensures FrameAnswers(trust, file, n, Handed(n, e).value)
  {
    match e
    case Arrived(wanted) => ArrivedKeeps(trust, file, n, wanted);
    case Taken(mid) => TakenKeeps(trust, file, n, mid);
  }

  function After(n: Net, events: seq<Event>): Net
    decreases |events|
  {
    if events == [] then n else After(Step(n, events[0]), events[1..])
  }

  ghost predicate Legal(trust: Trust, file: seq<byte>, n: Net, events: seq<Event>)
    decreases |events|
  {
    events == [] || (&& Enabled(trust, file, n, events[0])
                     && Fresh(n, events[0])
                     && Legal(trust, file, Step(n, events[0]), events[1..]))
  }

  /** Over every interleaving: after any legal history, every request is in
      exactly one place, every stored reply answers its own request, live ids are
      distinct, and no arrival has been or can be taken for a duplicate. */
  lemma {:induction false} MultiplexSafe(trust: Trust, file: seq<byte>, n: Net, events: seq<Event>, wanted: nat)
    requires Inv(trust, file, n) && Legal(trust, file, n, events)
    ensures Inv(trust, file, After(n, events))
    ensures !Collides(After(n, events), Arrived(wanted))
    decreases |events|
  {
    if events == [] {
      if n.wire != [] {
        ArrivedKeeps(trust, file, n, wanted);
      }
    } else {
      StepSafe(trust, file, n, events[0]);
      MultiplexSafe(trust, file, Step(n, events[0]), events[1..], wanted);
    }
  }

  lemma {:induction false} IdleInv(trust: Trust, file: seq<byte>)
    ensures Inv(trust, file, IDLE)
  {
  }

  /** The same from the start of a session: every run is safe. */
  lemma {:induction false} EveryRunSafe(trust: Trust, file: seq<byte>, events: seq<Event>, wanted: nat)
    requires Legal(trust, file, IDLE, events)
    ensures Inv(trust, file, After(IDLE, events))
    ensures !Collides(After(IDLE, events), Arrived(wanted))
  {
    IdleInv(trust, file);
    MultiplexSafe(trust, file, IDLE, events, wanted);
  }

  /** The first 65536 sends are fresh, and so is every send made with nothing live. */
  lemma {:induction false} EarlySendsFresh(trust: Trust, file: seq<byte>, n: Net, command: Command)
    requires Inv(trust, file, n)
    requires |n.requests| < MIDS || Live(n) == {}
    ensures Fresh(n, Sent(command))
  {
    forall s | s in Live(n) ensures MidOf(s) != MidOf(|n.requests|) {
      assert s in AllSent(n);
    }
  }

  // ----- Receiving, as a function of the frames that arrive -----

  datatype Scanned =
    | Found(frame: Frame, pending: map<nat, Frame>, rest: seq<Frame>)
    | Repeated(mid: nat, pending: map<nat, Frame>, rest: seq<Frame>)
    | Starved(pending: map<nat, Frame>)

  function ScanWire(mid: nat, pending: map<nat, Frame>, arrivals: seq<Frame>): Scanned
    decreases |arrivals|
  {
    if arrivals == [] then Starved(pending)
    else
      var f := arrivals[0];
      if f.Mid() == mid then Found(f, pending, arrivals[1..])
      else if f.Mid() in pending then Repeated(f.Mid(), pending[f.Mid() := f], arrivals[1..])
      else ScanWire(mid, pending[f.Mid() := f], arrivals[1..])
  }

  function Scan(mid: nat, pending: map<nat, Frame>, arrivals: seq<Frame>): Scanned {
    if mid in pending then Found(pending[mid], pending - {mid}, arrivals) else ScanWire(mid, pending, arrivals)
  }

  /** The frames before the first one with this id. */
  function Until(mid: nat, arrivals: seq<Frame>): (before: seq<Frame>)
    ensures before <= arrivals
    ensures forall f :: f in before ==> f.Mid() != mid
    ensures |before| < |arrivals| ==> arrivals[|before|].Mid() == mid
  {
    if arrivals == [] || arrivals[0].Mid() == mid then []
    else
      var before := Until(mid, arrivals[1..]);
      assert forall f :: f in [arrivals[0]] + before ==> f == arrivals[0] || f in before;
      [arrivals[0]] + before
  }

  /** No two of these frames share an id, and none has an id already pending. */
  predicate NoRepeat(pending: map<nat, Frame>, frames: seq<Frame>) {
    && (forall i :: 0 <= i < |frames| ==> frames[i].Mid() !in pending)
    && (forall i, j :: 0 <= i < j < |frames| ==> frames[i].Mid() != frames[j].Mid())
  }

  lemma {:induction false} NoRepeatStep(pending: map<nat, Frame>, f: Frame, frames: seq<Frame>)
    requires f.Mid() !in pending
    ensures NoRepeat(pending, [f] + frames) <==> NoRepeat(pending[f.Mid() := f], frames)
  {
    var all := [f] + frames;
    if NoRepeat(pending, all) {
      forall i | 0 <= i < |frames| ensures frames[i].Mid() !in pending[f.Mid() := f] {
        assert all[i + 1] == frames[i] && all[0] == f;
      }
      forall i, j | 0 <= i < j < |frames| ensures frames[i].Mid() != frames[j].Mid() {
        assert all[i + 1] == frames[i] && all[j + 1] == frames[j];
      }
    }
  }

  /** What becomes of the receive loop on a given order of arrivals: it reports a
      duplicate exactly when two of the frames before the wanted one share an id, or one
      has the id of a reply put aside. */
  lemma {:induction false} ScanOutcome(mid: nat, pending: map<nat, Frame>, arrivals: seq<Frame>)
    ensures ScanWire(mid, pending, arrivals).Repeated? <==> !NoRepeat(pending, Until(mid, arrivals))
    ensures ScanWire(mid, pending, arrivals).Found? <==>
              NoRepeat(pending, Until(mid, arrivals)) && |Until(mid, arrivals)| < |arrivals|
    ensures ScanWire(mid, pending, arrivals).Found? ==>
              ScanWire(mid, pending, arrivals).frame == arrivals[|Until(mid, arrivals)|]
    decreases |arrivals|
  {
    if arrivals != [] && arrivals[0].Mid() != mid {
      var f := arrivals[0];
      if f.Mid() in pending {
        assert Until(mid, arrivals)[0] == f;
      } else {
        ScanOutcome(mid, pending[f.Mid() := f], arrivals[1..]);
        NoRepeatStep(pending, f, Until(mid, arrivals[1..]));
      }
    }
  }

  // ----- Every order in which the frames still owed may come -----

  /** How many of these frames carry an id. */
  function CountMid(frames: seq<Frame>, mid: nat): nat {
    if frames == [] then 0 else (if frames[0].Mid() == mid then 1 else 0) + CountMid(frames[1..], mid)
  }

  lemma {:induction false} CountMidAppend(a: seq<Frame>, b: seq<Frame>, mid: nat)
    ensures CountMid(a + b, mid) == CountMid(a, mid) + CountMid(b, mid)
    decreases |a|
  {
    if a == [] {
      assert a + b == b;
    } else {
      assert (a + b)[1..] == a[1..] + b;
      CountMidAppend(a[1..], b, mid);
    }
  }

  lemma {:induction false} CountMidNothing(mid: nat)
    ensures CountMid([], mid) == 0
  {
  }

  lemma {:induction false} RemoveAt(b: seq<Frame>, k: nat, mid: nat)
    requires k < |b|
    ensures
      var rest := b[..k] + b[k + 1..];
      && multiset(rest) == multiset(b) - multiset{b[k]}
      && CountMid(b, mid) == CountMid(rest, mid) + (if b[k].Mid() == mid then 1 else 0)
  {
    assert b == b[..k] + ([b[k]] + b[k + 1..]);
    CountMidAppend(b[..k], [b[k]] + b[k + 1..], mid);
    CountMidAppend(b[..k], b[k + 1..], mid);
    assert ([b[k]] + b[k + 1..])[1..] == b[k + 1..];
  }

  lemma {:induction false} DropFirst(a: seq<Frame>, mid: nat)
    requires a != []
    ensures multiset(a) == multiset{a[0]} + multiset(a[1..])
    ensures CountMid(a, mid) == CountMid(a[1..], mid) + (if a[0].Mid() == mid then 1 else 0)
  {
    assert a == [a[0]] + a[1..];
  }

  /** The first frame of one list has its place in the other, and the rest fits around it. */
  lemma {:induction false} FirstFits(a: seq<Frame>, b: seq<Frame>, mid: nat) returns (rest: seq<Frame>)
    requires a != [] && multiset(a) <= multiset(b)
    ensures multiset(a[1..]) <= multiset(rest)
    ensures CountMid(b, mid) == CountMid(rest, mid) + (if a[0].Mid() == mid then 1 else 0)
  {
    hide CountMid;
    DropFirst(a, mid);
    assert a[0] in multiset(b);
    var k :| 0 <= k < |b| && b[k] == a[0];
    RemoveAt(b, k, mid);
    rest := b[..k] + b[k + 1..];
  }

  lemma {:induction false} CountMidLess(a: seq<Frame>, b: seq<Frame>, mid: nat)
    requires multiset(a) <= multiset(b)
    ensures CountMid(a, mid) <= CountMid(b, mid)
    decreases |a|
  {
    hide CountMid;
    if a == [] {
      CountMidNothing(mid);
    } else {
      var rest := FirstFits(a, b, mid);
      DropFirst(a, mid);
      CountMidLess(a[1..], rest, mid);
    }
  }

  lemma {:induction false} CountMidAt(frames: seq<Frame>, mid: nat, i: nat)
    requires i < |frames| && frames[i].Mid() == mid
    ensures CountMid(frames, mid) >= 1
  {
    RemoveAt(frames, i, mid);
  }

  lemma {:induction false} CountMidTwo(frames: seq<Frame>, mid: nat, i: nat, j: nat)
    requires i < j < |frames| && frames[i].Mid() == mid && frames[j].Mid() == mid
    ensures CountMid(frames, mid) >= 2
  {
    RemoveAt(frames, i, mid);
    var rest := frames[..i] + frames[i + 1..];
    assert rest[j - 1] == frames[j];
    RemoveAt(rest, j - 1, mid);
  }

  /** Frames none of which shares an id with another, or with a reply put aside. */
  lemma {:induction false} NoRepeatCount(pending: map<nat, Frame>, frames: seq<Frame>, mid: nat)
    requires NoRepeat(pending, frames)
    ensures CountMid(frames, mid) + (if mid in pending then 1 else 0) <= 1
    decreases |frames|
  {
    if frames != [] {
      var f := frames[0];
      assert frames == [f] + frames[1..];
      NoRepeatStep(pending, f, frames[1..]);
      NoRepeatCount(pending[f.Mid() := f], frames[1..], mid);
      assert f.Mid() !in pending;
    }
  }

  function Without(frames: seq<Frame>, mid: nat): (others: seq<Frame>)
    ensures forall f :: f in others ==> f.Mid() != mid
  {
    if frames == [] then []
    else if frames[0].Mid() == mid then Without(frames[1..], mid)
    else [frames[0]] + Without(frames[1..], mid)
  }

  function Only(frames: seq<Frame>, mid: nat): (wanted: seq<Frame>)
    ensures forall f :: f in wanted ==> f.Mid() == mid
  {
    if frames == [] then []
    else if frames[0].Mid() == mid then [frames[0]] + Only(frames[1..], mid)
    else Only(frames[1..], mid)
  }

  lemma {:induction false} KeptFirst(f: Frame, others: seq<Frame>, wanted: seq<Frame>, rest: seq<Frame>)
    requires multiset(others + wanted) == multiset(rest)
    ensures multiset(([f] + others) + wanted) == multiset([f] + rest)
  {
    assert ([f] + others) + wanted == [f] + (others + wanted);
  }

  lemma {:induction false} MovedFirst(f: Frame, others: seq<Frame>, wanted: seq<Frame>, rest: seq<Frame>)
    requires multiset(others + wanted) == multiset(rest)
    ensures multiset(others + ([f] + wanted)) == multiset([f] + rest)
  {
    assert multiset(others + ([f] + wanted)) == multiset(others) + multiset([f] + wanted);
  }

  lemma {:induction false} WantedLast(frames: seq<Frame>, mid: nat)
    ensures multiset(Without(frames, mid) + Only(frames, mid)) == multiset(frames)
    decreases |frames|
  {
    if frames == [] {
      assert Without(frames, mid) + Only(frames, mid) == frames;
    } else {
      var f, rest := frames[0], frames[1..];
      WantedLast(rest, mid);
      assert frames == [f] + rest;
      if f.Mid() != mid {
        KeptFirst(f, Without(rest, mid), Only(rest, mid), rest);
      } else {
        MovedFirst(f, Without(rest, mid), Only(rest, mid), rest);
      }
    }
  }

  lemma {:induction false} WithoutKeeps(frames: seq<Frame>, mid: nat, m: nat)
    requires m != mid
    ensures CountMid(Without(frames, mid), m) == CountMid(frames, m)
    decreases |frames|
  {
    if frames != [] {
      WithoutKeeps(frames[1..], mid, m);
      if frames[0].Mid() != mid {
        assert Without(frames, mid)[1..] == Without(frames[1..], mid);
      }
    }
  }

  lemma {:induction false} UntilWanted(mid: nat, others: seq<Frame>, wanted: seq<Frame>)
    requires forall f :: f in others ==> f.Mid() != mid
    requires forall f :: f in wanted ==> f.Mid() == mid
    ensures Until(mid, others + wanted) == others
    decreases |others|
  {
    if others == [] {
      assert others + wanted == wanted;
      assert wanted != [] ==> wanted[0] in wanted;
    } else {
      assert others[0] in others;
      assert (others + wanted)[1..] == others[1..] + wanted;
      UntilWanted(mid, others[1..], wanted);
    }
  }

  /** No id other than this one is both put aside and still owed a frame, or owed two. */
  ghost predicate NoOtherTwice(mid: nat, pending: map<nat, Frame>, owed: seq<Frame>) {
    forall m :: m != mid ==> CountMid(owed, m) + (if m in pending then 1 else 0) <= 1
  }

  lemma {:induction false} NoOtherTwiceIsSafe(mid: nat, pending: map<nat, Frame>, owed: seq<Frame>,
                                              arrivals: seq<Frame>)
    requires NoOtherTwice(mid, pending, owed) && multiset(arrivals) <= multiset(owed)
    ensures !ScanWire(mid, pending, arrivals).Repeated?
  {
    var before := Until(mid, arrivals);
    ScanOutcome(mid, pending, arrivals);
    forall i | 0 <= i < |before|
      ensures before[i].Mid() !in pending
      ensures forall j :: i < j < |before| ==> before[i].Mid() != before[j].Mid()
    {
      var m := before[i].Mid();
      assert before[i] in before && arrivals[i] == before[i];
      CountMidAt(arrivals, m, i);
      CountMidLess(arrivals, owed, m);
      forall j | i < j < |before| ensures before[j].Mid() != m {
        assert arrivals[j] == before[j];
        if before[j].Mid() == m {
          CountMidTwo(arrivals, m, i, j);
        }
      }
    }
  }

  /** Another id is taken twice: if the wanted frame comes last, that is a duplicate. */
  lemma {:induction false} OtherTwiceCollides(mid: nat, pending: map<nat, Frame>, owed: seq<Frame>, m: nat)
    returns (arrivals: seq<Frame>)
    requires mid !in pending && m != mid && CountMid(owed, m) + (if m in pending then 1 else 0) > 1
    ensures multiset(arrivals) <= multiset(owed)
    ensures Scan(mid, pending, arrivals).Repeated?
  {
    hide ScanWire, Until, NoRepeat, CountMid, Without, Only;
    var others, wanted := Without(owed, mid), Only(owed, mid);
    WantedLast(owed, mid);
    WithoutKeeps(owed, mid, m);
    UntilWanted(mid, others, wanted);
    if NoRepeat(pending, others) {
      NoRepeatCount(pending, others, m);
    }
    arrivals := others + wanted;
    ScanOutcome(mid, pending, arrivals);
  }

  /** Exactly when a receive can report a duplicate, as a condition on what is put aside
      and what is still owed before it begins: whichever of the frames owed arrive, and
      in whatever order, it never does, if and only if the wanted reply is put aside
      already or no other id is taken twice. */
  lemma {:induction false} DuplicateIff(mid: nat, pending: map<nat, Frame>, owed: seq<Frame>)
    ensures (forall arrivals :: multiset(arrivals) <= multiset(owed) ==> !Scan(mid, pending, arrivals).Repeated?)
            <==> mid in pending || NoOtherTwice(mid, pending, owed)
  {
    hide ScanWire, CountMid;
    if mid !in pending {
      if NoOtherTwice(mid, pending, owed) {
        forall arrivals | multiset(arrivals) <= multiset(owed) ensures !Scan(mid, pending, arrivals).Repeated? {
          NoOtherTwiceIsSafe(mid, pending, owed, arrivals);
        }
      } else {
        var m :| m != mid && CountMid(owed, m) + (if m in pending then 1 else 0) > 1;
        var arrivals := OtherTwiceCollides(mid, pending, owed, m);
      }
    }
  }

  /** Two reply fragments of a transaction its caller abandoned are such frames: the
      next command on the session fails with a duplicate, though nothing is wrong. */
  lemma {:induction false} AbandonedTransactionFails(abandoned: nat, wanted: nat, first: Reply, second: Reply,
                                                     answer: Reply)
    requires MidOf(abandoned) != MidOf(wanted)
    ensures
      var arrivals := [Frame(abandoned, first), Frame(abandoned, second), Frame(wanted, answer)];
      Scan(MidOf(wanted), map[], arrivals).Repeated?
  {
    var arrivals := [Frame(abandoned, first), Frame(abandoned, second), Frame(wanted, answer)];
    var held := map[MidOf(abandoned) := arrivals[0]];
    assert Scan(MidOf(wanted), map[], arrivals) == ScanWire(MidOf(wanted), held, arrivals[1..]);
    assert arrivals[1..][0] == arrivals[1];
  }

  /** The frame is either put aside already or still to arrive. */
  predicate Coming(pending: map<nat, Frame>, arrivals: seq<Frame>, f: Frame) {
    if f.Mid() in pending then pending[f.Mid()] == f else f in arrivals
  }

  lemma {:induction false} ScanComing(pending: map<nat, Frame>, arrivals: seq<Frame>, f: Frame, others: set<Frame>)
    requires NoRepeat(pending, arrivals) && Coming(pending, arrivals, f)
    requires forall g :: g in others ==> Coming(pending, arrivals, g) && g.Mid() != f.Mid()
    ensures
      var found := Scan(f.Mid(), pending, arrivals);
      && found.Found? && found.frame == f
      && NoRepeat(found.pending, found.rest)
      && f.Mid() !in found.pending && (forall g :: g in found.rest ==> g.Mid() != f.Mid())
      && (forall g :: g in others ==> Coming(found.pending, found.rest, g))
      && (forall mid :: mid in pending && mid != f.Mid() ==> mid in found.pending && found.pending[mid] == pending[mid])
      && (forall mid :: mid in found.pending ==> mid in pending || exists g :: g in arrivals && g.Mid() == mid)
      && (forall g :: g in found.rest ==> g in arrivals)
    decreases |arrivals|
  {
    if f.Mid() !in pending {
      var head := arrivals[0];
      var tail := arrivals[1..];
      assert arrivals == [head] + tail;
      if head.Mid() == f.Mid() {
        var at :| 0 <= at < |arrivals| && arrivals[at] == f;
        assert at == 0;
        forall g | g in tail ensures g.Mid() != f.Mid() {
          var i :| 0 <= i < |tail| && tail[i] == g;
          assert arrivals[i + 1] == g;
        }
      } else {
        NoRepeatStep(pending, head, tail);
        ScanComing(pending[head.Mid() := head], tail, f, others);
      }
    } else {
      forall i | 0 <= i < |arrivals| ensures arrivals[i].Mid() != f.Mid() {}
    }
  }

  lemma {:induction false} ScanWireMore(mid: nat, pending: map<nat, Frame>, a: seq<Frame>, b: seq<Frame>)
    ensures match ScanWire(mid, pending, a)
            case Found(f, p, rest) => ScanWire(mid, pending, a + b) == Found(f, p, rest + b)
            case Repeated(m, p, rest) => ScanWire(mid, pending, a + b) == Repeated(m, p, rest + b)
            case Starved(p) => ScanWire(mid, pending, a + b) == ScanWire(mid, p, b)
    decreases |a|
  {
    if a == [] {
      assert a + b == b;
    } else {
      assert (a + b)[0] == a[0] && (a + b)[1..] == a[1..] + b;
      if a[0].Mid() != mid && a[0].Mid() !in pending {
        ScanWireMore(mid, pending[a[0].Mid() := a[0]], a[1..], b);
      }
    }
  }

  /** More frames matter only to a receive that has not ended yet. */
  lemma {:induction false} ScanMore(mid: nat, pending: map<nat, Frame>, a: seq<Frame>, b: seq<Frame>)
    ensures match Scan(mid, pending, a)
            case Found(f, p, rest) => Scan(mid, pending, a + b) == Found(f, p, rest + b)
            case Repeated(m, p, rest) => Scan(mid, pending, a + b) == Repeated(m, p, rest + b)
            case Starved(p) => Scan(mid, pending, a + b) == ScanWire(mid, p, b)
  {
    ScanWireMore(mid, pending, a, b);
  }

  predicate Known(pending: map<nat, Frame>, arrivals: seq<Frame>, f: Frame) {
    f in arrivals || exists m :: m in pending && pending[m] == f
  }

  /** Everything a receive hands over or keeps was put aside before or arrived meanwhile. */
  lemma {:induction false} ScanWireKeeps(mid: nat, pending: map<nat, Frame>, arrivals: seq<Frame>)
    ensures
      var found := ScanWire(mid, pending, arrivals);
      && (forall m :: m in found.pending ==> Known(pending, arrivals, found.pending[m]))
      && (found.Found? ==> found.frame in arrivals)
      && (!found.Starved? ==> forall f :: f in found.rest ==> f in arrivals)
    decreases |arrivals|
  {
    if arrivals != [] {
      var f := arrivals[0];
      assert arrivals == [f] + arrivals[1..];
      if f.Mid() != mid && f.Mid() !in pending {
        ScanWireKeeps(mid, pending[f.Mid() := f], arrivals[1..]);
      }
    }
  }

  lemma {:induction false} ScanKeeps(mid: nat, pending: map<nat, Frame>, arrivals: seq<Frame>)
    ensures
      var found := Scan(mid, pending, arrivals);
      && (forall m :: m in found.pending ==> Known(pending, arrivals, found.pending[m]))
      && (found.Found? ==> Known(pending, arrivals, found.frame))
      && (!found.Starved? ==> forall f :: f in found.rest ==> f in arrivals)
  {
    ScanWireKeeps(mid, pending, arrivals);
  }

  // ----- When the 16-bit counter comes round again -----

  /** An order in which the server may still answer, the newest request included. */
  predicate AnswerOrder(n: Net, later: seq<Frame>, newest: nat) {
    && (forall i :: 0 <= i < |later| ==> later[i].serial in n.outstanding)
    && DistinctFrames(later)
    && (exists f :: f in later && f.serial == newest)
  }

  predicate ReceivesOwn(n: Net, later: seq<Frame>, newest: nat) {
    var found := Scan(MidOf(newest), n.pending, n.wire + later);
    found.Found? && found.frame.serial == newest
  }

  lemma {:induction false} StaleComesFirst(mid: nat, pending: map<nat, Frame>, arrivals: seq<Frame>, at: nat,
                                           newest: nat)
    requires mid !in pending && at < |arrivals| && arrivals[at].Mid() == mid
    requires forall i :: 0 <= i <= at ==> arrivals[i].serial != newest
    ensures
      var found := Scan(mid, pending, arrivals);
      !(found.Found? && found.frame.serial == newest)
  {
    ScanOutcome(mid, pending, arrivals);
    var before := Until(mid, arrivals);
    forall i | 0 <= i < |before| ensures arrivals[i].Mid() != mid {
      assert before[i] in before;
    }
  }

  lemma {:induction false} LiveBefore(trust: Trust, file: seq<byte>, n: Net)
    requires Inv(trust, file, n)
    ensures forall s :: s in n.outstanding || s in OnWire(n) ==> s < |n.requests|
    ensures forall m :: m in n.pending ==> n.pending[m].serial in Held(n) && n.pending[m].Mid() == m
    ensures forall s :: s in Held(n) ==> s < |n.requests|
  {
    assert forall s :: s in n.outstanding + OnWire(n) + Held(n) ==> s in AllSent(n);
  }

  /** The stale reply was put aside: it is found before anything is received. */
  lemma {:induction false} HeldMisleads(trust: Trust, file: seq<byte>, n: Net, stale: nat, arrivals: seq<Frame>)
    requires Inv(trust, file, n) && stale in Held(n) && MidOf(stale) == MidOf(|n.requests|)
    ensures
      var found := Scan(MidOf(|n.requests|), n.pending, arrivals);
      found.Found? && found.frame.serial != |n.requests|
  {
    LiveBefore(trust, file, n);
    var m :| m in n.pending && n.pending[m].serial == stale;
  }

  lemma {:induction false} ReusedIdMisleads(trust: Trust, file: seq<byte>, n: Net, command: Command, stale: nat)
    returns (later: seq<Frame>)
    requires Inv(trust, file, n) && stale in Live(n) && MidOf(stale) == MidOf(|n.requests|)
    ensures AnswerOrder(Step(n, Sent(command)), later, |n.requests|)
    ensures !ReceivesOwn(n, later, |n.requests|)
  {
    var newest := |n.requests|;
    LiveBefore(trust, file, n);
    var last := Frame(newest, Status);
    later := if stale in n.outstanding then [Frame(stale, Status), last] else [last];
    assert later[|later| - 1] == last;
    if stale in Held(n) {
      HeldMisleads(trust, file, n, stale, n.wire + later);
    } else {
      hide Scan;
      var arrivals := n.wire + later;
      var at := |n.wire|;
      if stale in OnWire(n) {
        var f :| f in n.wire && f.serial == stale;
        at :| 0 <= at < |n.wire| && n.wire[at] == f;
      }
      forall i | 0 <= i <= at ensures arrivals[i].serial != newest {
        if i < |n.wire| { assert n.wire[i].serial in OnWire(n); }
      }
      StaleComesFirst(MidOf(newest), n.pending, arrivals, at, newest);
    }
  }

  /** Frames on the wire and frames still to be sent never repeat an id. */
  lemma {:induction false} ArrivalsNoRepeat(trust: Trust, file: seq<byte>, n: Net, later: seq<Frame>)
    requires Inv(trust, file, n) && DistinctFrames(later)
    requires forall i :: 0 <= i < |later| ==> later[i].serial in n.outstanding
    ensures NoRepeat(n.pending, n.wire + later)
  {
    var arrivals := n.wire + later;
    assert forall i :: 0 <= i < |n.wire| ==> n.wire[i].serial in OnWire(n);
    assert forall i :: 0 <= i < |arrivals| ==> arrivals[i].serial in n.outstanding + OnWire(n);
    forall i, j | 0 <= i < j < |arrivals| ensures arrivals[i].serial != arrivals[j].serial {
      if i < |n.wire| <= j { assert later[j - |n.wire|].serial in n.outstanding; }
    }
    assert forall m :: m in n.pending ==> n.pending[m].serial in Held(n);
  }

  lemma {:induction false} FreshReceivesOwn(trust: Trust, file: seq<byte>, n: Net, command: Command, later: seq<Frame>)
    requires Inv(trust, file, n) && Fresh(n, Sent(command))
    requires AnswerOrder(Step(n, Sent(command)), later, |n.requests|)
    ensures ReceivesOwn(n, later, |n.requests|)
  {
    SentKeeps(trust, file, n, command);
    ArrivalsNoRepeat(trust, file, Step(n, Sent(command)), later);
    var f :| f in later && f.serial == |n.requests|;
    assert forall m :: m in n.pending ==> n.pending[m].serial in Held(n);
    ScanComing(n.pending, n.wire + later, f, {});
  }

  /** The exact condition for reusing an id after the counter wraps: the new
      request is answered rightly, in whatever order the server answers, if and
      only if no request still live carries the same id. */
  lemma {:induction false} ReuseIff(trust: Trust, file: seq<byte>, n: Net, command: Command)
    requires Inv(trust, file, n)
    ensures (forall later :: AnswerOrder(Step(n, Sent(command)), later, |n.requests|) ==>
               ReceivesOwn(n, later, |n.requests|))
            <==> Fresh(n, Sent(command))
  {
    if Fresh(n, Sent(command)) {
      forall later | AnswerOrder(Step(n, Sent(command)), later, |n.requests|)
        ensures ReceivesOwn(n, later, |n.requests|)
      {
        FreshReceivesOwn(trust, file, n, command, later);
      }
    } else {
      var stale :| stale in Live(n) && MidOf(stale) == MidOf(|n.requests|);
      var later := ReusedIdMisleads(trust, file, n, command, stale);
    }
  }

  // ----- A run that reaches a reused id -----

  /** The session in which the first request is never answered and every later one is. */
  function FirstUnanswered(sent: nat): Net
    requires sent >= 1
  {
    Net(seq(sent, _ => Some(OtherCommand)), {0}, [], map[], Serials(1, sent))
  }

  function RunTo(sent: nat): seq<Event>
    requires sent >= 1
  {
    if sent == 1 then [Sent(OtherCommand)]
    else RunTo(sent - 1) + [Sent(OtherCommand), Answered(sent - 1, Status), Arrived(MidOf(sent - 1))]
  }

  lemma {:induction false} AfterAppend(trust: Trust, file: seq<byte>, n: Net, a: seq<Event>, b: seq<Event>)
    requires Legal(trust, file, n, a) && Legal(trust, file, After(n, a), b)
    ensures Legal(trust, file, n, a + b) && After(n, a + b) == After(After(n, a), b)
    decreases |a|
  {
    if a == [] {
      assert a + b == b;
    } else {
      assert (a + b)[0] == a[0] && (a + b)[1..] == a[1..] + b;
      AfterAppend(trust, file, Step(n, a[0]), a[1..], b);
    }
  }

  lemma {:induction false} FirstUnansweredLive(sent: nat)
    requires sent >= 1
    ensures Live(FirstUnanswered(sent)) == {0}
  {
  }

  /** One more request is sent, answered and received. */
  lemma {:induction false} OneMoreAnswered(trust: Trust, file: seq<byte>, sent: nat)
    requires 1 <= sent < MIDS
    ensures
      var n := FirstUnanswered(sent);
      var three := [Sent(OtherCommand), Answered(sent, Status), Arrived(MidOf(sent))];
      Legal(trust, file, n, three) && After(n, three) == FirstUnanswered(sent + 1)
  {
    var n := FirstUnanswered(sent);
    var three := [Sent(OtherCommand), Answered(sent, Status), Arrived(MidOf(sent))];
    FirstUnansweredLive(sent);
    var n1 := Step(n, three[0]);
    assert n1.requests == seq(sent + 1, _ => Some(OtherCommand));
    var n2 := Step(n1, three[1]);
    assert n2.outstanding == {0} && n2.wire == [Frame(sent, Status)];
    var n3 := Step(n2, three[2]);
    assert n3.wire == [] && n3 == FirstUnanswered(sent + 1);
    assert three[1..] == [three[1], three[2]] && three[1..][1..] == [three[2]] && three[1..][1..][1..] == [];
    assert Legal(trust, file, n3, []) && After(n3, []) == n3;
    assert Legal(trust, file, n2, three[1..][1..]) && After(n2, three[1..][1..]) == n3;
    assert Legal(trust, file, n1, three[1..]) && After(n1, three[1..]) == n3;
  }

  lemma {:induction false} RunReaches(trust: Trust, file: seq<byte>, sent: nat)
    requires 1 <= sent <= MIDS
    ensures Legal(trust, file, IDLE, RunTo(sent)) && After(IDLE, RunTo(sent)) == FirstUnanswered(sent)
    decreases sent
  {
    if sent == 1 {
      var n := Step(IDLE, Sent(OtherCommand));
      assert n.requests == seq(1, _ => Some(OtherCommand)) && n.outstanding == {0};
      assert RunTo(1)[1..] == [];
    } else {
      RunReaches(trust, file, sent - 1);
      OneMoreAnswered(trust, file, sent - 1);
      AfterAppend(trust, file, IDLE, RunTo(sent - 1),
                  [Sent(OtherCommand), Answered(sent - 1, Status), Arrived(MidOf(sent - 1))]);
    }
  }

  lemma {:induction false} WrapSize()
    ensures |FirstUnanswered(MIDS).requests| == MIDS
  {
  }

  /** The first reply, still on its way, comes before that of a request with its id. */
  lemma {:induction false} FirstComesFirst(later: seq<Frame>)
    requires later == [Frame(0, Status), Frame(MIDS, Status)]
    ensures Scan(MidOf(MIDS), map[], later) == Found(Frame(0, Status), map[], [Frame(MIDS, Status)])
  {
    assert later[0].Mid() == 0 && MidOf(MIDS) == 0;
    assert later[1..] == [Frame(MIDS, Status)];
  }

  lemma {:induction false} WrapOrder(command: Command, later: seq<Frame>)
    requires later == [Frame(0, Status), Frame(MIDS, Status)]
    ensures AnswerOrder(Step(FirstUnanswered(MIDS), Sent(command)), later, MIDS)
    ensures FirstUnanswered(MIDS).pending == map[] && FirstUnanswered(MIDS).wire == []
  {
    WrapSize();
    assert later[1] in later;
  }

  /** The failing half of `ReuseIff` is met: a legal run from the start of a session, with
      65536 requests of which only the first is unanswered, after which the caller of the
      next request is handed the reply to the first. */
  lemma {:induction false} WrapMisleads(trust: Trust, file: seq<byte>, command: Command)
    returns (events: seq<Event>, later: seq<Frame>)
    ensures Legal(trust, file, IDLE, events)
    ensures
      var n := After(IDLE, events);
      && Inv(trust, file, n) && |n.requests| == MIDS && !Fresh(n, Sent(command))
      && AnswerOrder(Step(n, Sent(command)), later, MIDS) && !ReceivesOwn(n, later, MIDS)
      && (var found := Scan(MidOf(MIDS), n.pending, n.wire + later);
          found.Found? && found.frame == Frame(0, Status))
  {
    hide Inv, Legal, After, Step, AnswerOrder, FirstUnanswered, Scan;
    events := RunTo(MIDS);
    RunReaches(trust, file, MIDS);
    EveryRunSafe(trust, file, events, 0);
    FirstUnansweredLive(MIDS);
    WrapSize();
    later := [Frame(0, Status), Frame(MIDS, Status)];
    WrapOrder(command, later);
    FirstComesFirst(later);
    assert [] + later == later;
  }
}
