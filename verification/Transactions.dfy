/** Commands with any number of reply fragments, one after the other on a session, over
    whole runs: when giving one up makes a later one fail with a duplicate. */
module Transactions {
  import opened Base
  import opened Multiplex

  /** How many requests were sent, how many frames each is still owed, wherever they are
      on their way, and the replies put aside, each by its id. A frame is known by the
      serial number of its request. */
  datatype Owing = Owing(sent: nat, owed: multiset<nat>, held: map<nat, nat>)

  const START: Owing := Owing(0, multiset{}, map[])

  ghost predicate Inv(t: Owing) {
    && t.sent <= MIDS
    && (forall s :: s in t.owed ==> s < t.sent)
    && (forall m :: m in t.held ==> t.held[m] < t.sent && MidOf(t.held[m]) == m)
  }

  /** The replies to a request that its caller has not been given. */
  function Left(t: Owing, s: nat): nat {
    t.owed[s] + (if MidOf(s) in t.held && t.held[MidOf(s)] == s then 1 else 0)
  }

  function Send(t: Owing, replies: nat): Owing {
    t.(sent := t.sent + 1, owed := t.owed[t.sent := replies])
  }

  /** One frame arrives while the caller of `wanted` waits: it is handed over or put aside. */
  function Arrive(t: Owing, wanted: nat, s: nat): Owing {
    var t' := t.(owed := t.owed - multiset{s});
    if MidOf(s) == wanted then t' else t'.(held := t.held[MidOf(s) := s])
  }

  /** The arrival that is reported as a duplicate. */
  predicate Collides(t: Owing, wanted: nat, s: nat) { MidOf(s) != wanted && MidOf(s) in t.held }

  function Wait(t: Owing, wanted: nat, arrivals: seq<nat>): Owing
    decreases |arrivals|
  {
    if arrivals == [] then t else Wait(Arrive(t, wanted, arrivals[0]), wanted, arrivals[1..])
  }

  predicate Clashes(t: Owing, wanted: nat, arrivals: seq<nat>)
    decreases |arrivals|
  {
    arrivals != []
    && (Collides(t, wanted, arrivals[0]) || Clashes(Arrive(t, wanted, arrivals[0]), wanted, arrivals[1..]))
  }

  /** These frames are owed, in whatever order they come. */
  predicate MayCome(t: Owing, arrivals: seq<nat>)
    decreases |arrivals|
  {
    arrivals == [] || (arrivals[0] in t.owed && MayCome(t.(owed := t.owed - multiset{arrivals[0]}), arrivals[1..]))
  }

  /** No request but this one has more than one reply left. */
  ghost predicate QuietBut(t: Owing, serial: nat) {
    forall s: nat :: s != serial ==> Left(t, s) <= 1
  }

  lemma {:induction false} MayComeOwed(t: Owing, t': Owing, arrivals: seq<nat>)
    requires t.owed == t'.owed && MayCome(t, arrivals)
    ensures MayCome(t', arrivals)
    decreases |arrivals|
  {
    if arrivals != [] {
      var first := multiset{arrivals[0]};
      MayComeOwed(t.(owed := t.owed - first), t'.(owed := t'.owed - first), arrivals[1..]);
    }
  }

  lemma {:induction false} SendKeeps(t: Owing, replies: nat)
    requires Inv(t) && t.sent < MIDS
    ensures Inv(Send(t, replies))
    ensures forall s: nat :: s != t.sent ==> Left(Send(t, replies), s) == Left(t, s)
  {
  }

  /** An arrival that does not collide moves a reply, and takes none from other requests. */
  lemma {:induction false} ArriveKeeps(t: Owing, serial: nat, s: nat)
    requires Inv(t) && serial < t.sent && s in t.owed && !Collides(t, MidOf(serial), s)
    ensures Inv(Arrive(t, MidOf(serial), s))
    ensures forall r: nat :: r < t.sent && r != serial ==> Left(Arrive(t, MidOf(serial), s), r) == Left(t, r)
  {
  }

  lemma {:induction false} OnlySentLeft(t: Owing)
    requires Inv(t)
    ensures forall s: nat :: Left(t, s) > 0 ==> s < t.sent
  {
  }

  /** A wait without a collision leaves every other request as many replies as it had. */
  lemma {:induction false} WaitKeeps(t: Owing, serial: nat, arrivals: seq<nat>)
    requires Inv(t) && serial < t.sent && MayCome(t, arrivals) && !Clashes(t, MidOf(serial), arrivals)
    ensures
      var t' := Wait(t, MidOf(serial), arrivals);
      && Inv(t') && t'.sent == t.sent
      && (forall s: nat :: s < t.sent && s != serial ==> Left(t', s) == Left(t, s))
    decreases |arrivals|
  {
    hide Inv, Left;
    if arrivals != [] {
      ArriveKeeps(t, serial, arrivals[0]);
      var t1 := Arrive(t, MidOf(serial), arrivals[0]);
      MayComeOwed(t.(owed := t.owed - multiset{arrivals[0]}), t1, arrivals[1..]);
      WaitKeeps(t1, serial, arrivals[1..]);
    }
  }

  lemma {:induction false} NoCollision(t: Owing, serial: nat, s: nat)
    requires Inv(t) && serial < t.sent && QuietBut(t, serial) && s in t.owed
    ensures !Collides(t, MidOf(serial), s)
  {
    assert s != serial ==> Left(t, s) <= 1;
  }

  /** Where no other request has more than one reply left, no order of arrival collides. */
  lemma {:induction false} QuietIsSafe(t: Owing, serial: nat, arrivals: seq<nat>)
    requires Inv(t) && serial < t.sent && QuietBut(t, serial) && MayCome(t, arrivals)
    ensures !Clashes(t, MidOf(serial), arrivals)
    decreases |arrivals|
  {
    if arrivals != [] {
      var s := arrivals[0];
      NoCollision(t, serial, s);
      hide Inv, Left;
      ArriveKeeps(t, serial, s);
      var t1 := Arrive(t, MidOf(serial), s);
      OnlySentLeft(t1);
      MayComeOwed(t.(owed := t.owed - multiset{s}), t1, arrivals[1..]);
      QuietIsSafe(t1, serial, arrivals[1..]);
    }
  }

  /** Two replies left to another request, and nothing else, collide. */
  lemma {:induction false} TwoLeftCollide(t: Owing, serial: nat, s: nat) returns (arrivals: seq<nat>)
    requires Inv(t) && serial < t.sent && s != serial && Left(t, s) >= 2
    ensures MayCome(t, arrivals) && Clashes(t, MidOf(serial), arrivals)
  {
    OnlySentLeft(t);
    if t.owed[s] >= 2 {
      arrivals := [s, s];
      assert arrivals[1..] == [s];
      assert MayCome(t.(owed := t.owed - multiset{s}), [s]);
      var t1 := Arrive(t, MidOf(serial), s);
      assert Collides(t, MidOf(serial), s) || Collides(t1, MidOf(serial), s);
    } else {
      arrivals := [s];
    }
  }

  /** Every request may have at most one reply left. */
  ghost predicate Quiet(t: Owing) { forall s: nat :: Left(t, s) <= 1 }

  /** The next command does not fail with a duplicate, whichever of the frames owed, its
      own among them, arrive and in whatever order. */
  ghost predicate NextIsSafe(t: Owing, replies: nat) {
    forall arrivals :: MayCome(Send(t, replies), arrivals) ==> !Clashes(Send(t, replies), MidOf(t.sent), arrivals)
  }

  lemma {:induction false} NotSafe(t: Owing, replies: nat, arrivals: seq<nat>)
    requires MayCome(Send(t, replies), arrivals) && Clashes(Send(t, replies), MidOf(t.sent), arrivals)
    ensures !NextIsSafe(t, replies)
  {
  }

  /** Exactly when the next command can fail with a duplicate, whatever it is and however
      many replies it has: if and only if an earlier command has more than one reply left. */
  lemma {:induction false} NextCommandIff(t: Owing, replies: nat)
    requires Inv(t) && t.sent < MIDS
    ensures NextIsSafe(t, replies) <==> Quiet(t)
  {
    hide Inv, Left, Clashes, MayCome;
    SendKeeps(t, replies);
    OnlySentLeft(t);
    var t1 := Send(t, replies);
    if Quiet(t) {
      forall arrivals | MayCome(t1, arrivals) ensures !Clashes(t1, MidOf(t.sent), arrivals) {
        QuietIsSafe(t1, t.sent, arrivals);
      }
    } else {
      var s: nat :| Left(t, s) > 1;
      assert s < t.sent && Left(t1, s) == Left(t, s);
      var arrivals := TwoLeftCollide(t1, t.sent, s);
      NotSafe(t, replies, arrivals);
    }
  }

  // ----- Whole runs -----

  /** A command, how many replies it has, and the frames that arrive until its caller has
      all it wants or gives up. */
  datatype Turn = Turn(replies: nat, arrivals: seq<nat>)

  function Played(t: Owing, turn: Turn): Owing {
    Wait(Send(t, turn.replies), MidOf(t.sent), turn.arrivals)
  }

  function Run(t: Owing, turns: seq<Turn>): Owing
    decreases |turns|
  {
    if turns == [] then t else Run(Played(t, turns[0]), turns[1..])
  }

  predicate Legal(t: Owing, turns: seq<Turn>)
    decreases |turns|
  {
    turns == []
    || (&& t.sent < MIDS && MayCome(Send(t, turns[0].replies), turns[0].arrivals)
        && Legal(Played(t, turns[0]), turns[1..]))
  }

  /** No command of the run fails with a duplicate. */
  predicate NoDuplicate(t: Owing, turns: seq<Turn>)
    decreases |turns|
  {
    turns == []
    || (&& !Clashes(Send(t, turns[0].replies), MidOf(t.sent), turns[0].arrivals)
        && NoDuplicate(Played(t, turns[0]), turns[1..]))
  }

  /** Every command ends with at most one reply still to come. */
  predicate Disciplined(t: Owing, turns: seq<Turn>)
    decreases |turns|
  {
    turns == [] || (Left(Played(t, turns[0]), t.sent) <= 1 && Disciplined(Played(t, turns[0]), turns[1..]))
  }

  lemma {:induction false} PlayedKeeps(t: Owing, turn: Turn)
    requires Inv(t) && t.sent < MIDS && MayCome(Send(t, turn.replies), turn.arrivals)
    requires !Clashes(Send(t, turn.replies), MidOf(t.sent), turn.arrivals)
    ensures Inv(Played(t, turn)) && Played(t, turn).sent == t.sent + 1
    ensures forall s: nat :: s != t.sent ==> Left(Played(t, turn), s) == Left(t, s)
  {
    hide Inv, Left;
    SendKeeps(t, turn.replies);
    WaitKeeps(Send(t, turn.replies), t.sent, turn.arrivals);
    OnlySentLeft(t);
    OnlySentLeft(Played(t, turn));
    forall s: nat | s != t.sent ensures Left(Played(t, turn), s) == Left(t, s) {
      if s > t.sent {
        assert Left(t, s) == 0 && Left(Played(t, turn), s) == 0;
      }
    }
  }

  /** A command given up keeps its replies left through any run without a duplicate. */
  lemma {:induction false} RunKeeps(t: Owing, turns: seq<Turn>)
    requires Inv(t) && Legal(t, turns) && NoDuplicate(t, turns)
    ensures Inv(Run(t, turns)) && Run(t, turns).sent == t.sent + |turns|
    ensures forall s: nat :: s < t.sent ==> Left(Run(t, turns), s) == Left(t, s)
    decreases |turns|
  {
    hide Inv, Left, Clashes, MayCome, Played;
    if turns != [] {
      PlayedKeeps(t, turns[0]);
      RunKeeps(Played(t, turns[0]), turns[1..]);
    }
  }

  lemma {:induction false} PlayedQuietIff(t: Owing, turn: Turn)
    requires Inv(t) && t.sent < MIDS && MayCome(Send(t, turn.replies), turn.arrivals)
    requires !Clashes(Send(t, turn.replies), MidOf(t.sent), turn.arrivals)
    ensures Quiet(Played(t, turn)) <==> Quiet(t) && Left(Played(t, turn), t.sent) <= 1
  {
    hide Inv, Left, Clashes, MayCome, Played;
    PlayedKeeps(t, turn);
    OnlySentLeft(t);
    if Quiet(Played(t, turn)) {
      forall s: nat ensures Left(t, s) <= 1 {
        if s != t.sent {
          assert Left(Played(t, turn), s) == Left(t, s);
        }
      }
    }
  }

  lemma {:induction false} RunQuietIff(t: Owing, turns: seq<Turn>)
    requires Inv(t) && Legal(t, turns) && NoDuplicate(t, turns)
    ensures Quiet(Run(t, turns)) <==> Quiet(t) && Disciplined(t, turns)
    decreases |turns|
  {
    hide Inv, Left, Clashes, MayCome, Played;
    if turns != [] {
      PlayedKeeps(t, turns[0]);
      PlayedQuietIff(t, turns[0]);
      RunQuietIff(Played(t, turns[0]), turns[1..]);
    }
  }

  /** A disciplined run never meets a duplicate, whatever the order of arrivals. */
  lemma {:induction false} DisciplinedIsSafe(t: Owing, turns: seq<Turn>)
    requires Inv(t) && Quiet(t) && Legal(t, turns) && Disciplined(t, turns)
    ensures NoDuplicate(t, turns)
    decreases |turns|
  {
    hide Inv, Left, Clashes, MayCome, Played;
    if turns != [] {
      NextCommandIff(t, turns[0].replies);
      PlayedKeeps(t, turns[0]);
      PlayedQuietIff(t, turns[0]);
      DisciplinedIsSafe(Played(t, turns[0]), turns[1..]);
    }
  }

  lemma {:induction false} StartInv()
    ensures Inv(START) && Quiet(START)
  {
  }

  /** Over whole sessions of at most 65536 commands: after any run without a duplicate,
      the next command is safe in every order of arrival if and only if every command so
      far ended with at most one reply still to come. */
  lemma {:induction false} SessionIff(turns: seq<Turn>, replies: nat)
    requires Legal(START, turns) && NoDuplicate(START, turns) && |turns| < MIDS
    ensures NextIsSafe(Run(START, turns), replies) <==> Disciplined(START, turns)
  {
    hide Inv, Left, Clashes, MayCome, Played, Quiet, Legal, NoDuplicate, Disciplined, Run;
    StartInv();
    RunKeeps(START, turns);
    RunQuietIff(START, turns);
    NextCommandIff(Run(START, turns), replies);
  }

  /** Sessions of transactions received to their end never meet a duplicate. */
  lemma {:induction false} SessionSafe(turns: seq<Turn>)
    requires Legal(START, turns) && Disciplined(START, turns)
    ensures NoDuplicate(START, turns)
  {
    hide Legal, NoDuplicate, Disciplined;
    StartInv();
    DisciplinedIsSafe(START, turns);
  }
}
