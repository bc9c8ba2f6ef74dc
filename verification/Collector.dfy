/** Reassembling a transaction's parameter and data from fragments that may come
    in any order. */
module Collectors {
  import opened Base

  predicate IsLeast(k: nat, keys: set<nat>) {
    k in keys && forall j :: j in keys ==> k <= j
  }

  lemma {:induction false} Least(keys: set<nat>) returns (k: nat)
    requires keys != {}
    ensures IsLeast(k, keys)
    decreases |keys|
  {
    k :| k in keys;
    if keys != {k} {
      var m := Least(keys - {k});
      forall j | j in keys ensures Min(k, m) <= j {
        if j != k {
          assert j in keys - {k};
        }
      }
      k := Min(k, m);
    }
  }

  lemma {:induction false} LeastExists(keys: set<nat>)
    requires keys != {}
    ensures exists k :: IsLeast(k, keys)
  {
    var k := Least(keys);
  }

  /** The least offset present. */
  function MinKey(keys: set<nat>): (k: nat)
    requires keys != {}
    ensures IsLeast(k, keys)
  {
    LeastExists(keys);
    var k: nat :| k in keys && IsLeast(k, keys);
    k
  }

  lemma {:induction false} MinKeyIs(keys: set<nat>, k: nat)
    requires IsLeast(k, keys)
    ensures MinKey(keys) == k
  {
  }

  /** Bytes stored in all. */
  function Stored(fragments: map<nat, seq<byte>>): nat
    decreases |fragments|
  {
    if fragments == map[] then 0
    else
      var k: nat := MinKey(fragments.Keys);
      |fragments[k]| + Stored(fragments - {k})
  }

  /** The walk over the fragments in offset order, from position |prefix| on. */
  function Walk(fragments: map<nat, seq<byte>>, prefix: seq<byte>): Result<seq<byte>>
    decreases |fragments|
  {
    if fragments == map[] then Ok(prefix)
    else
      var k: nat := MinKey(fragments.Keys);
      if k != |prefix| then Err(Reassemble) else Walk(fragments - {k}, prefix + fragments[k])
  }

  function Assemble(fragments: map<nat, seq<byte>>, total: Option<nat>): Result<seq<byte>> {
    if total.None? then Err(InvalidData)
    else if Stored(fragments) != total.value then Err(Reassemble)
    else Walk(fragments, [])
  }

  predicate NonEmpty(fragments: map<nat, seq<byte>>) {
    forall k :: k in fragments ==> fragments[k] != []
  }

  ghost predicate Carry(fragments: map<nat, seq<byte>>, payload: seq<byte>, start: nat) {
    forall k :: k in fragments ==>
      && start <= k && k + |fragments[k]| <= |payload|
      && payload[k..k + |fragments[k]|] == fragments[k]
  }

  ghost predicate Apart(fragments: map<nat, seq<byte>>) {
    forall j, k :: j in fragments && k in fragments && j < k ==> j + |fragments[j]| <= k
  }

  ghost predicate Covered(fragments: map<nat, seq<byte>>, i: nat) {
    exists k :: k in fragments && k <= i < k + |fragments[k]|
  }

  /** The fragments tile the payload from `start` on: each lies inside it and
      carries its bytes, no two overlap, and every position is covered. */
  ghost predicate Tiles(fragments: map<nat, seq<byte>>, payload: seq<byte>, start: nat) {
    && Carry(fragments, payload, start)
    && Apart(fragments)
    && (forall i :: start <= i < |payload| ==> Covered(fragments, i))
  }

  /** Removing any one fragment takes exactly its bytes away. */
  lemma {:induction false} StoredWithout(fragments: map<nat, seq<byte>>, k: nat)
    requires k in fragments
    ensures Stored(fragments) == |fragments[k]| + Stored(fragments - {k})
    decreases |fragments|
  {
    var m: nat := MinKey(fragments.Keys);
    if m != k {
      StoredWithout(fragments - {m}, k);
      assert k in (fragments - {m});
      MinKeyIs((fragments - {k}).Keys, m);
      assert (fragments - {k}) - {m} == (fragments - {m}) - {k};
    }
  }

  lemma {:induction false} WalkLength(fragments: map<nat, seq<byte>>, prefix: seq<byte>)
    requires Walk(fragments, prefix).Ok?
    ensures |Walk(fragments, prefix).value| == |prefix| + Stored(fragments)
    decreases |fragments|
  {
    if fragments != map[] {
      var k: nat := MinKey(fragments.Keys);
      WalkLength(fragments - {k}, prefix + fragments[k]);
    }
  }

  /** Tiles from `k` on are the tile at `k` and tiles from its end on. */
  lemma {:induction false} TilesAddFirst(fragments: map<nat, seq<byte>>, payload: seq<byte>, k: nat)
    requires k in fragments && fragments[k] != [] && k + |fragments[k]| <= |payload|
    requires payload[k..k + |fragments[k]|] == fragments[k]
    requires Tiles(fragments - {k}, payload, k + |fragments[k]|)
    ensures Tiles(fragments, payload, k)
  {
    var rest := fragments - {k};
    forall j | j in fragments ensures j == k || (j in rest && rest[j] == fragments[j]) {}
    forall i | k <= i < |payload| ensures Covered(fragments, i) {
      if i >= k + |fragments[k]| {
        assert Covered(rest, i);
        var j :| j in rest && j <= i < j + |rest[j]|;
        assert j in fragments;
      }
    }
  }

  lemma {:induction false} TilesDropFirst(fragments: map<nat, seq<byte>>, payload: seq<byte>, k: nat)
    requires Tiles(fragments, payload, k) && k in fragments
    ensures Tiles(fragments - {k}, payload, k + |fragments[k]|)
  {
    var rest := fragments - {k};
    forall i: nat | k + |fragments[k]| <= i < |payload| ensures Covered(rest, i) {
      assert Covered(fragments, i);
      var j :| j in fragments && j <= i < j + |fragments[j]|;
      assert j in rest;
    }
  }

  lemma {:induction false} TilesStart(fragments: map<nat, seq<byte>>, payload: seq<byte>, start: nat)
    requires NonEmpty(fragments) && Tiles(fragments, payload, start) && start <= |payload|
    ensures start < |payload| ==> start in fragments && MinKey(fragments.Keys) == start
    ensures start == |payload| ==> fragments == map[]
  {
    if start < |payload| {
      assert Covered(fragments, start);
      MinKeyIs(fragments.Keys, start);
    } else {
      assert forall k :: k in fragments ==> |fragments[k]| > 0;
      assert fragments.Keys == {};
    }
  }

  /** A walk that succeeds has tiled what it returns. */
  lemma {:induction false} WalkTiles(fragments: map<nat, seq<byte>>, prefix: seq<byte>)
    requires NonEmpty(fragments) && Walk(fragments, prefix).Ok?
    ensures prefix <= Walk(fragments, prefix).value
    ensures Tiles(fragments, Walk(fragments, prefix).value, |prefix|)
    decreases |fragments|
  {
    if fragments != map[] {
      var k: nat := |prefix|;
      WalkTiles(fragments - {k}, prefix + fragments[k]);
      var payload := Walk(fragments, prefix).value;
      assert payload[k..k + |fragments[k]|] == (prefix + fragments[k])[k..] == fragments[k];
      TilesAddFirst(fragments, payload, k);
    }
  }

  /** Fragments that tile the payload are walked to the payload. */
  lemma {:induction false} TilesWalk(fragments: map<nat, seq<byte>>, payload: seq<byte>, prefix: seq<byte>)
    requires NonEmpty(fragments) && prefix <= payload && Tiles(fragments, payload, |prefix|)
    ensures Walk(fragments, prefix) == Ok(payload)
    decreases |fragments|
  {
    TilesStart(fragments, payload, |prefix|);
    if |prefix| < |payload| {
      var k: nat := |prefix|;
      TilesDropFirst(fragments, payload, k);
      assert prefix + fragments[k] == payload[..k + |fragments[k]|];
      TilesWalk(fragments - {k}, payload, prefix + fragments[k]);
    } else {
      assert prefix == payload;
    }
  }

  /** Reassembly succeeds with a payload exactly when the fragments tile it, with
      no gap and no overlap, whatever order they came in. */
  lemma {:induction false} AssembleIff(fragments: map<nat, seq<byte>>, total: Option<nat>, payload: seq<byte>)
    requires NonEmpty(fragments)
    ensures Assemble(fragments, total) == Ok(payload) <==> total == Some(|payload|) && Tiles(fragments, payload, 0)
  {
    if Assemble(fragments, total) == Ok(payload) {
      WalkTiles(fragments, []);
      WalkLength(fragments, []);
    }
    if total == Some(|payload|) && Tiles(fragments, payload, 0) {
      TilesWalk(fragments, payload, []);
      WalkLength(fragments, []);
    }
  }

  // ----- Adding fragments -----

  datatype Collected = Collected(fragments: map<nat, seq<byte>>, total: Option<nat>)

  const NOTHING: Collected := Collected(map[], None)

  /** One fragment: its state afterwards, and whether it was accepted. A fragment
      at an offset already taken is refused but has replaced the other. */
  function AddFragment(c: Collected, data: seq<byte>, offset: nat, total: nat): (r: (Collected, bool))
    ensures NonEmpty(c.fragments) ==> NonEmpty(r.0.fragments)
  {
    if c.total.Some? && c.total.value != total then (c, false)
    else
      var c' := c.(total := Some(total));
      if data == [] then (c', true)
      else (c'.(fragments := c.fragments[offset := data]), offset !in c.fragments)
  }

  predicate Ready(c: Collected) { c.total.Some? && Stored(c.fragments) >= c.total.value }

  datatype Fragment = Fragment(data: seq<byte>, offset: nat)

  function AddAll(c: Collected, parts: seq<Fragment>, total: nat): (Collected, bool)
    decreases |parts|
  {
    if parts == [] then (c, true)
    else
      var (c', ok) := AddFragment(c, parts[0].data, parts[0].offset, total);
      if ok then AddAll(c', parts[1..], total) else (c', false)
  }

  /** The non-empty fragments are at different offsets. */
  predicate DistinctOffsets(parts: seq<Fragment>) {
    forall i, j :: 0 <= i < j < |parts| && parts[i].data != [] && parts[j].data != [] ==>
        parts[i].offset != parts[j].offset
  }

  /** The fragments as the collector stores them, empty ones left out. */
  function Gathered(parts: seq<Fragment>): map<nat, seq<byte>> {
    if parts == [] then map[]
    else
      var last := parts[|parts| - 1];
      var before := Gathered(parts[..|parts| - 1]);
      if last.data == [] then before else before[last.offset := last.data]
  }

  lemma {:induction false} GatheredFrom(parts: seq<Fragment>, offset: nat)
    requires offset in Gathered(parts)
    ensures exists i :: 0 <= i < |parts| && parts[i].data != [] && parts[i].offset == offset
  {
    var n := |parts| - 1;
    if !(parts[n].data != [] && parts[n].offset == offset) {
      GatheredFrom(parts[..n], offset);
    }
  }

  lemma {:induction false} GatheredHas(parts: seq<Fragment>, i: nat)
    requires i < |parts| && parts[i].data != []
    ensures parts[i].offset in Gathered(parts)
  {
    if i < |parts| - 1 {
      GatheredHas(parts[..|parts| - 1], i);
    }
  }

  lemma {:induction false} AddAllLast(c: Collected, parts: seq<Fragment>, total: nat)
    requires parts != []
    ensures
      var n := |parts| - 1;
      var (before, ok) := AddAll(c, parts[..n], total);
      AddAll(c, parts, total)
      == if ok then AddFragment(before, parts[n].data, parts[n].offset, total) else (before, false)
    decreases |parts|
  {
    var n := |parts| - 1;
    if n > 0 {
      assert parts[..n][1..] == parts[1..][..n - 1];
      AddAllLast(AddFragment(c, parts[0].data, parts[0].offset, total).0, parts[1..], total);
    }
  }

  /** Fragments at different offsets are all accepted, in any order, and stored as they are. */
  lemma {:induction false} AddAllGathers(parts: seq<Fragment>, total: nat)
    requires DistinctOffsets(parts)
    ensures AddAll(NOTHING, parts, total)
         == (Collected(Gathered(parts), if parts == [] then None else Some(total)), true)
    ensures NonEmpty(Gathered(parts))
  {
    if parts != [] {
      var n := |parts| - 1;
      AddAllLast(NOTHING, parts, total);
      AddAllGathers(parts[..n], total);
      if parts[n].data != [] && parts[n].offset in Gathered(parts[..n]) {
        GatheredFrom(parts[..n], parts[n].offset);
      }
    }
  }

  lemma {:induction false} GatheredLast(parts: seq<Fragment>)
    requires DistinctOffsets(parts) && parts != []
    ensures
      var n := |parts| - 1;
      Stored(Gathered(parts)) == Stored(Gathered(parts[..n])) + |parts[n].data|
  {
    var n := |parts| - 1;
    var offset := parts[n].offset;
    if parts[n].data != [] {
      if offset in Gathered(parts[..n]) {
        GatheredFrom(parts[..n], offset);
      }
      StoredWithout(Gathered(parts), offset);
      assert Gathered(parts) - {offset} == Gathered(parts[..n]);
    }
  }

  /** How many bytes some fragments have. */
  function LenOf(parts: seq<Fragment>): nat {
    if parts == [] then 0 else LenOf(parts[..|parts| - 1]) + |parts[|parts| - 1].data|
  }

  lemma {:induction false} StoredIsAdded(parts: seq<Fragment>)
    requires DistinctOffsets(parts)
    ensures Stored(Gathered(parts)) == LenOf(parts)
  {
    if parts != [] {
      GatheredLast(parts);
      StoredIsAdded(parts[..|parts| - 1]);
    }
  }

  lemma {:induction false} WalkFailure(fragments: map<nat, seq<byte>>, prefix: seq<byte>)
    ensures Walk(fragments, prefix).Err? ==> Walk(fragments, prefix) == Err(Reassemble)
    decreases |fragments|
  {
    if fragments != map[] {
      var k: nat := MinKey(fragments.Keys);
      if k == |prefix| {
        WalkFailure(fragments - {k}, prefix + fragments[k]);
      }
    }
  }

  /** A half is ready once as many bytes as its total were added, whether they tile it or
      not; with more than that, or with a gap, it cannot be assembled. */
  lemma {:induction false} OverfullFails(parts: seq<Fragment>, total: nat)
    requires DistinctOffsets(parts) && parts != []
    ensures
      var c := AddAll(NOTHING, parts, total).0;
      && (Ready(c) <==> LenOf(parts) >= total)
      && (LenOf(parts) != total ==> Assemble(c.fragments, c.total) == Err(Reassemble))
      && (Assemble(c.fragments, c.total).Err? ==> Assemble(c.fragments, c.total) == Err(Reassemble))
  {
    AddAllGathers(parts, total);
    StoredIsAdded(parts);
    WalkFailure(Gathered(parts), []);
  }

  /** One fragment more is refused exactly when the total has changed or its offset is taken
      by another; then the one already there is lost. */
  lemma {:induction false} RefusedIff(parts: seq<Fragment>, total: nat, part: Fragment, next: nat)
    requires DistinctOffsets(parts) && parts != []
    ensures
      var (c, ok) := AddFragment(AddAll(NOTHING, parts, total).0, part.data, part.offset, next);
      && (ok <==> next == total && DistinctOffsets(parts + [part]))
      && (next == total && part.data != [] ==> part.offset in c.fragments && c.fragments[part.offset] == part.data)
      && (next != total ==> c == AddAll(NOTHING, parts, total).0)
  {
    AddAllGathers(parts, total);
    var all := parts + [part];
    if part.data != [] && part.offset in Gathered(parts) {
      GatheredFrom(parts, part.offset);
      var i :| 0 <= i < |parts| && parts[i].data != [] && parts[i].offset == part.offset;
      assert all[i] == parts[i] && all[|parts|] == part;
    } else {
      forall i, j | 0 <= i < j < |all| && all[i].data != [] && all[j].data != []
        ensures all[i].offset != all[j].offset
      {
        if j == |parts| {
          GatheredHas(parts, i);
        }
      }
    }
  }

  /** More non-empty fragments store strictly more. */
  lemma {:induction false} GatheredGrows(parts: seq<Fragment>, n: nat)
    requires DistinctOffsets(parts) && n <= |parts|
    ensures Stored(Gathered(parts[..n])) <= Stored(Gathered(parts))
    ensures (exists i :: n <= i < |parts| && parts[i].data != []) ==>
        Stored(Gathered(parts[..n])) < Stored(Gathered(parts))
    ensures (forall i :: n <= i < |parts| ==> parts[i].data == []) ==> Gathered(parts[..n]) == Gathered(parts)
    decreases |parts|
  {
    if n == |parts| {
      assert parts[..n] == parts;
    } else {
      var m := |parts| - 1;
      assert parts[..m][..n] == parts[..n];
      GatheredGrows(parts[..m], n);
      GatheredLast(parts);
    }
  }

  /** Reassembly does not depend on order: fragments that tile a payload, in any
      order and with empty ones anywhere among them, are all accepted; the
      collector becomes ready exactly when the last non-empty one is in; and
      from then on it yields the payload. */
  lemma {:induction false} ReassemblyExact(parts: seq<Fragment>, payload: seq<byte>, n: nat)
    requires DistinctOffsets(parts) && Tiles(Gathered(parts), payload, 0)
    requires 0 < n <= |parts|
    ensures
      var (c, ok) := AddAll(NOTHING, parts[..n], |payload|);
      && ok
      && (Ready(c) <==> forall i :: n <= i < |parts| ==> parts[i].data == [])
      && (Ready(c) ==> Assemble(c.fragments, c.total) == Ok(payload))
  {
    AddAllGathers(parts, |payload|);
    AddAllGathers(parts[..n], |payload|);
    AssembleIff(Gathered(parts), Some(|payload|), payload);
    GatheredGrows(parts, n);
  }

  class Collector {
    var fragments: map<nat, seq<byte>>
    var total: Option<nat>

    ghost function Abs(): Collected
      reads this
    {
      Collected(fragments, total)
    }

    constructor ()
      ensures Abs() == NOTHING
    {
      fragments, total := map[], None;
    }

    method Add(data: seq<byte>, offset: nat, total: nat) returns (ok: bool)
      modifies this
      ensures (Abs(), ok) == AddFragment(old(Abs()), data, offset, total)
    {
      if this.total.Some? {
        if this.total.value != total {
          return false;
        }
      } else {
        this.total := Some(total);
      }
      if data == [] {
        return true;
      }
      var taken := offset in fragments;
      fragments := fragments[offset := data];
      return !taken;
    }

    /** Sums over the stored fragments, in whatever order the map gives them. */
    method Len() returns (n: nat)
      ensures n == Stored(fragments)
    {
      n := 0;
      var left := fragments;
      while left != map[]
        invariant n + Stored(left) == Stored(fragments)
        decreases |left|
      {
        var k :| k in left;
        StoredWithout(left, k);
        n := n + |left[k]|;
        left := left - {k};
      }
    }

    method IsReady() returns (ready: bool)
      ensures ready == Ready(Abs())
    {
      if total.None? {
        return false;
      }
      var n := Len();
      return n >= total.value;
    }

    /** The loop over the fragments sorted by offset. */
    method Get() returns (r: Result<seq<byte>>)
      ensures r == Assemble(fragments, total)
    {
      if total.None? {
        return Err(InvalidData);
      }
      var n := Len();
      if n != total.value {
        return Err(Reassemble);
      }
      var buffer: seq<byte> := [];
      var left := fragments;
      while left != map[]
        invariant Walk(left, buffer) == Walk(fragments, [])
        decreases |left|
      {
        var offset := MinKey(left.Keys);
        if |buffer| != offset {
          return Err(Reassemble);
        }
        buffer := buffer + left[offset];
        left := left - {offset};
      }
      return Ok(buffer);
    }
  }

  // ----- Both halves of a transaction -----

  /** One reply message: a fragment of the parameter and one of the data, either
      of which may be empty, with the totals. */
  datatype Message = Message(parameter: Fragment, parameterTotal: nat, data: Fragment, dataTotal: nat)

  class CollectTrans2 {
    const parameter: Collector
    const data: Collector

    constructor ()
      ensures parameter.Abs() == NOTHING && data.Abs() == NOTHING
      ensures fresh(parameter) && fresh(data) && parameter != data
    {
      parameter := new Collector();
      data := new Collector();
    }

    /** Ok(true) when both halves are complete. */
    method Add(m: Message) returns (r: Result<bool>)
      requires parameter != data
      modifies parameter, data
      ensures
        var (p, pok) := AddFragment(old(parameter.Abs()), m.parameter.data, m.parameter.offset, m.parameterTotal);
        var (d, dok) := AddFragment(old(data.Abs()), m.data.data, m.data.offset, m.dataTotal);
        && parameter.Abs() == p
        && data.Abs() == (if pok then d else old(data.Abs()))
        && r == if pok && dok then Ok(Ready(p) && Ready(d)) else Err(Reassemble)
    {
      var ok := parameter.Add(m.parameter.data, m.parameter.offset, m.parameterTotal);
      if !ok {
        return Err(Reassemble);
      }
      ok := data.Add(m.data.data, m.data.offset, m.dataTotal);
      if !ok {
        return Err(Reassemble);
      }
      var p := parameter.IsReady();
      var d := data.IsReady();
      return Ok(p && d);
    }

    method GetParts() returns (r: Result<(seq<byte>, seq<byte>)>)
      ensures
        var p := Assemble(parameter.fragments, parameter.total);
        var d := Assemble(data.fragments, data.total);
        r == if p.Err? then Err(p.error) else if d.Err? then Err(d.error) else Ok((p.value, d.value))
    {
      var p := parameter.Get();
      if p.Err? {
        return Err(p.error);
      }
      var d := data.Get();
      if d.Err? {
        return Err(d.error);
      }
      return Ok((p.value, d.value));
    }
  }

  function Parameters(ms: seq<Message>): (parts: seq<Fragment>)
    ensures |parts| == |ms|
  {
    seq(|ms|, i requires 0 <= i < |ms| => ms[i].parameter)
  }

  function Datas(ms: seq<Message>): (parts: seq<Fragment>)
    ensures |parts| == |ms|
  {
    seq(|ms|, i requires 0 <= i < |ms| => ms[i].data)
  }

  /** The messages carry the whole of both halves, in pieces. */
  ghost predicate Carries(ms: seq<Message>, parameter: seq<byte>, data: seq<byte>) {
    && (forall i :: 0 <= i < |ms| ==> ms[i].parameterTotal == |parameter| && ms[i].dataTotal == |data|)
    && DistinctOffsets(Parameters(ms)) && Tiles(Gathered(Parameters(ms)), parameter, 0)
    && DistinctOffsets(Datas(ms)) && Tiles(Gathered(Datas(ms)), data, 0)
  }

  lemma {:induction false} HalfCollected(parts: seq<Fragment>, payload: seq<byte>, n: nat)
    requires DistinctOffsets(parts) && Tiles(Gathered(parts), payload, 0) && n < |parts|
    ensures
      var c := AddAll(NOTHING, parts[..n], |payload|).0;
      var (c', ok) := AddFragment(c, parts[n].data, parts[n].offset, |payload|);
      && ok
      && c' == AddAll(NOTHING, parts[..n + 1], |payload|).0
      && (Ready(c') ==> Assemble(c'.fragments, c'.total) == Ok(payload))
      && (n + 1 == |parts| ==> Ready(c'))
  {
    ReassemblyExact(parts, payload, n + 1);
    assert parts[..n + 1][..n] == parts[..n];
    AddAllLast(NOTHING, parts[..n + 1], |payload|);
    AddAllGathers(parts[..n], |payload|);
  }

  /** Fragments that were all accepted are at different offsets. */
  lemma {:induction false} AcceptedAreDistinct(parts: seq<Fragment>, total: nat)
    requires AddAll(NOTHING, parts, total).1
    ensures DistinctOffsets(parts)
  {
    if parts != [] {
      var n := |parts| - 1;
      AddAllLast(NOTHING, parts, total);
      AcceptedAreDistinct(parts[..n], total);
      AddAllGathers(parts[..n], total);
      forall i, j | 0 <= i < j < |parts| && parts[i].data != [] && parts[j].data != []
        ensures parts[i].offset != parts[j].offset
      {
        if j == n {
          GatheredHas(parts[..n], i);
        } else {
          assert parts[i] == parts[..n][i] && parts[j] == parts[..n][j];
        }
      }
    }
  }

  /** What the two collectors hold after these messages, all of them accepted. */
  ghost predicate Gathering(ms: seq<Message>, p: Collected, d: Collected) {
    if ms == [] then p == NOTHING && d == NOTHING
    else
      && (forall i :: 0 <= i < |ms| ==>
          ms[i].parameterTotal == ms[0].parameterTotal && ms[i].dataTotal == ms[0].dataTotal)
      && AddAll(NOTHING, Parameters(ms), ms[0].parameterTotal) == (p, true)
      && AddAll(NOTHING, Datas(ms), ms[0].dataTotal) == (d, true)
  }

  lemma {:induction false} HalfGathers(parts: seq<Fragment>, c: Collected, total: nat, part: Fragment, next: nat)
    requires parts == [] ==> c == NOTHING
    requires parts != [] ==> AddAll(NOTHING, parts, total) == (c, true)
    requires AddFragment(c, part.data, part.offset, next).1
    ensures parts != [] ==> next == total
    ensures AddAll(NOTHING, parts + [part], next) == AddFragment(c, part.data, part.offset, next)
  {
    assert (parts + [part])[..|parts|] == parts;
    AddAllLast(NOTHING, parts + [part], next);
    if parts != [] {
      AcceptedAreDistinct(parts, total);
      AddAllGathers(parts, total);
    }
  }

  lemma {:induction false} GatheringMore(ms: seq<Message>, p: Collected, d: Collected, m: Message)
    requires Gathering(ms, p, d)
    requires AddFragment(p, m.parameter.data, m.parameter.offset, m.parameterTotal).1
    requires AddFragment(d, m.data.data, m.data.offset, m.dataTotal).1
    ensures Gathering(ms + [m], AddFragment(p, m.parameter.data, m.parameter.offset, m.parameterTotal).0,
                                AddFragment(d, m.data.data, m.data.offset, m.dataTotal).0)
  {
    assert Parameters(ms + [m]) == Parameters(ms) + [m.parameter];
    assert Datas(ms + [m]) == Datas(ms) + [m.data];
    HalfGathers(Parameters(ms), p, if ms == [] then 0 else ms[0].parameterTotal, m.parameter, m.parameterTotal);
    HalfGathers(Datas(ms), d, if ms == [] then 0 else ms[0].dataTotal, m.data, m.dataTotal);
  }

  lemma {:induction false} HalfAssembled(parts: seq<Fragment>, c: Collected, total: nat, payload: seq<byte>)
    requires parts != [] && AddAll(NOTHING, parts, total) == (c, true)
    requires Assemble(c.fragments, c.total) == Ok(payload)
    ensures total == |payload| && DistinctOffsets(parts) && Tiles(Gathered(parts), payload, 0)
  {
    AcceptedAreDistinct(parts, total);
    AddAllGathers(parts, total);
    AssembleIff(Gathered(parts), Some(total), payload);
  }

  /** Messages whose halves could be assembled carried them. */
  lemma {:induction false} AssembledIsCarried(ms: seq<Message>, p: Collected, d: Collected, parameter: seq<byte>,
                                              data: seq<byte>)
    requires ms != [] && Gathering(ms, p, d)
    requires Assemble(p.fragments, p.total) == Ok(parameter) && Assemble(d.fragments, d.total) == Ok(data)
    ensures Carries(ms, parameter, data)
  {
    HalfAssembled(Parameters(ms), p, ms[0].parameterTotal, parameter);
    HalfAssembled(Datas(ms), d, ms[0].dataTotal, data);
  }
}
