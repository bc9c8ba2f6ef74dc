/** Directory listings: the chain of entries in a reply, and listing page by page. */
module Directories {
  import opened Base
  import opened Cursors
  import opened Texts

  /** The attribute bits the program knows, from the least significant on. */
  function ExtFileAttr(): seq<bool> {
    [true, true, true, false, true, true, false, true,
     true, false, false, true, false, false, false, false,
     false, false, false, false, false, false, false, false,
     true, true, true, true, true, true, false, true]
  }

  /** One entry. Times are kept as the raw 64-bit counts. */
  datatype DirInfo = DirInfo(created: nat, accessed: nat, written: nat, changed: nat,
                             size: nat, attributes: nat, name: seq<nat>)

  predicate ValidInfo(d: DirInfo) {
    && d.created < U64_LIMIT && d.accessed < U64_LIMIT && d.written < U64_LIMIT && d.changed < U64_LIMIT
    && d.size < U64_LIMIT
    && IsText(d.name) && |EncodeUtf16(d.name)| < U32_LIMIT
  }

  /** The attribute bits that are kept. */
  lemma {:induction false} AttributeKeptIff(n: nat, k: nat)
    ensures Bit(Truncate(n, ExtFileAttr()), k) <==>
              Bit(n, k) && k in {0, 1, 2, 4, 5, 7, 8, 11, 24, 25, 26, 27, 28, 29, 31}
  {
    hide Bit, Truncate;
    TruncateBit(n, ExtFileAttr(), k);
  }

  /** An entry without its prefix. */
  function ParseDirInfo(raw: seq<byte>): Result<DirInfo> {
    if |raw| < 60 then Err(InvalidData)
    else
      var nameLength := U32At(raw, 56);
      if |raw| - 60 < nameLength then Err(InvalidData)
      else
        var name :- DecodeUtf16(raw[60..60 + nameLength]);
        Ok(DirInfo(U64At(raw, 4), U64At(raw, 12), U64At(raw, 20), U64At(raw, 28),
                   U64At(raw, 36), Truncate(U32At(raw, 52), ExtFileAttr()), name))
  }

  /** Exactly when an entry panics: its name length fits the entry and is odd, and the
      name is sound up to its last byte. */
  lemma {:induction false} DirInfoPanicIff(raw: seq<byte>)
    ensures ParseDirInfo(raw) == Err(Panic) <==>
              && |raw| >= 60
              && 60 + U32At(raw, 56) <= |raw|
              && U32At(raw, 56) % 2 == 1
              && SoundSoFar(raw[60..60 + U32At(raw, 56) - 1])
  {
    hide U32At, U64At, SoundSoFar;
    if |raw| >= 60 && 60 + U32At(raw, 56) <= |raw| {
      var name := raw[60..60 + U32At(raw, 56)];
      Utf16PanicIff(name);
      if name != [] {
        assert name[..|name| - 1] == raw[60..60 + U32At(raw, 56) - 1];
      }
    }
  }

  /** Such an entry: a name of one byte. */
  lemma {:induction false} OneByteNamePanics()
    ensures ParseDirInfo(Zeros(56) + [1, 0, 0, 0] + [0x41]) == Err(Panic)
  {
    var raw := Zeros(56) + [1, 0, 0, 0] + [0x41];
    assert raw[60..61] == [0x41];
  }

  method ReadDirInfo(raw: seq<byte>) returns (r: Result<DirInfo>)
    ensures r == ParseDirInfo(raw)
  {
    hide U32At, U64At, DecodeUtf16, Truncate, ExtFileAttr;
    if |raw| < 60 {
      return Err(InvalidData);
    }
    var data := new Cursor(raw);
    var index := data.Take(4);
    var created := data.GetU64();
    var accessed := data.GetU64();
    var written := data.GetU64();
    var changed := data.GetU64();
    var size := data.GetU64();
    var allocation := data.Take(8);
    var attributes := data.GetU32();
    var nameLength := data.GetU32();
    if |raw| - data.at < nameLength.value {
      return Err(InvalidData);
    }
    var rawName := data.Take(nameLength.value);
    var name := DecodeUtf16(rawName.value);
    if name.Err? {
      return Err(name.error);
    }
    return Ok(DirInfo(created.value, accessed.value, written.value, changed.value, size.value,
                      Truncate(attributes.value, ExtFileAttr()), name.value));
  }

  /** The parts of an entry that are the server's own business: file index, allocation
      size, attribute bits nobody knows, and padding after the name. */
  datatype Extras = Extras(index: seq<byte>, allocation: seq<byte>, attributes: nat, padding: seq<byte>)

  predicate ValidExtras(d: DirInfo, x: Extras) {
    && |x.index| == 4 && |x.allocation| == 8
    && x.attributes < U32_LIMIT && Truncate(x.attributes, ExtFileAttr()) == d.attributes
  }

  /** The four times and the size. */
  function Times(d: DirInfo): (raw: seq<byte>)
    requires ValidInfo(d)
    ensures |raw| == 40
  {
    U64(d.created) + U64(d.accessed) + U64(d.written) + U64(d.changed) + U64(d.size)
  }

  function Rest(d: DirInfo, x: Extras): (raw: seq<byte>)
    requires ValidInfo(d) && ValidExtras(d, x)
    ensures |raw| == 16 + |EncodeUtf16(d.name)| + |x.padding|
  {
    var name := EncodeUtf16(d.name);
    x.allocation + U32(x.attributes) + U32(|name|) + (name + x.padding)
  }

  /** How a server writes an entry. */
  function DirInfoBytes(d: DirInfo, x: Extras): (raw: seq<byte>)
    requires ValidInfo(d) && ValidExtras(d, x)
    ensures |raw| == 60 + |EncodeUtf16(d.name)| + |x.padding|
  {
    x.index + Times(d) + Rest(d, x)
  }

  lemma {:induction false} TimesAt(d: DirInfo)
    requires ValidInfo(d)
    ensures U64At(Times(d), 0) == d.created && U64At(Times(d), 8) == d.accessed && U64At(Times(d), 16) == d.written
    ensures U64At(Times(d), 24) == d.changed && U64At(Times(d), 32) == d.size
  {
    hide U64, U64At;
    var raw := Times(d);
    assert raw[0..8] == U64(d.created) && raw[8..16] == U64(d.accessed) && raw[16..24] == U64(d.written);
    assert raw[24..32] == U64(d.changed) && raw[32..40] == U64(d.size);
    U64RoundTrip(raw, 0, d.created);
    U64RoundTrip(raw, 8, d.accessed);
    U64RoundTrip(raw, 16, d.written);
    U64RoundTrip(raw, 24, d.changed);
    U64RoundTrip(raw, 32, d.size);
  }

  lemma {:induction false} RestAt(d: DirInfo, x: Extras)
    requires ValidInfo(d) && ValidExtras(d, x)
    ensures
      var raw, name := Rest(d, x), EncodeUtf16(d.name);
      && U32At(raw, 8) == x.attributes && U32At(raw, 12) == |name|
      && raw[16..16 + |name|] == name
  {
    hide U32, U32At, EncodeUtf16;
    var raw, name := Rest(d, x), EncodeUtf16(d.name);
    assert raw[8..12] == U32(x.attributes) && raw[12..16] == U32(|name|);
    assert raw[16..] == name + x.padding;
    U32RoundTrip(raw, 8, x.attributes);
    U32RoundTrip(raw, 12, |name|);
  }

  lemma {:induction false} ShiftedU64(front: seq<byte>, middle: seq<byte>, rest: seq<byte>, i: nat)
    requires i + 8 <= |middle|
    ensures U64At(front + middle + rest, |front| + i) == U64At(middle, i)
  {
    var s := front + middle + rest;
    forall k | i <= k < i + 8 ensures s[|front| + k] == middle[k] {}
  }

  lemma {:induction false} ShiftedU32(front: seq<byte>, middle: seq<byte>, i: nat)
    requires i + 4 <= |middle|
    ensures U32At(front + middle, |front| + i) == U32At(middle, i)
  {
    var s := front + middle;
    forall k | i <= k < i + 4 ensures s[|front| + k] == middle[k] {}
  }

  lemma {:induction false} DirInfoRoundTrip(d: DirInfo, x: Extras)
    requires ValidInfo(d) && ValidExtras(d, x)
    ensures ParseDirInfo(DirInfoBytes(d, x)) == Ok(d)
  {
    hide U64, U64At, U32, U32At, Times, Rest, EncodeUtf16, DecodeUtf16, Truncate, ExtFileAttr;
    var raw := DirInfoBytes(d, x);
    var times, rest, n := Times(d), Rest(d, x), |EncodeUtf16(d.name)|;
    TimesAt(d);
    RestAt(d, x);
    ShiftedU64(x.index, times, rest, 0);
    ShiftedU64(x.index, times, rest, 8);
    ShiftedU64(x.index, times, rest, 16);
    ShiftedU64(x.index, times, rest, 24);
    ShiftedU64(x.index, times, rest, 32);
    ShiftedU32(x.index + times, rest, 8);
    ShiftedU32(x.index + times, rest, 12);
    assert raw[60..60 + n] == rest[16..16 + n];
    Utf16RoundTrip(d.name);
  }

  // ----- The chain of entries -----

  /** The raw entries of a chain as FindFirst2 reads it: a zero prefix stands for
      everything that is left, a prefix of four ends the chain. */
  function ChainFirst(data: seq<byte>): Result<seq<seq<byte>>>
    decreases |data|
  {
    if data == [] then Ok([])
    else if |data| < 4 then Err(InvalidData)
    else
      var prefix := U32At(data, 0);
      if 0 < prefix < 4 then Err(InvalidData)
      else
        var size := if prefix == 0 then |data| - 4 else prefix - 4;
        if size == 0 then Ok([])
        else if |data| - 4 < size then Err(InvalidData)
        else
          var others :- ChainFirst(data[4 + size..]);
          Ok([data[4..4 + size]] + others)
  }

  /** As FindNext2 reads it: any prefix below four is an error. */
  function ChainNext(data: seq<byte>): Result<seq<seq<byte>>>
    decreases |data|
  {
    if data == [] then Ok([])
    else if |data| < 4 then Err(InvalidData)
    else
      var prefix := U32At(data, 0);
      if prefix < 4 then Err(InvalidData)
      else
        var size := prefix - 4;
        if size == 0 then Ok([])
        else if |data| - 4 < size then Err(InvalidData)
        else
          var others :- ChainNext(data[4 + size..]);
          Ok([data[4..4 + size]] + others)
  }

  /** A zero prefix is met on the walk along the chain. */
  predicate MeetsZero(data: seq<byte>)
    decreases |data|
  {
    |data| >= 4
    && (var prefix := U32At(data, 0);
        || prefix == 0
        || (4 < prefix <= |data| && MeetsZero(data[prefix..])))
  }

  /** The two readers agree exactly on the chains without a zero prefix; on a chain
      with one, which FindFirst2 may accept, FindNext2 fails. */
  lemma {:induction false} ChainsAgreeIff(data: seq<byte>)
    ensures !MeetsZero(data) ==> ChainNext(data) == ChainFirst(data)
    ensures MeetsZero(data) ==> ChainNext(data) == Err(InvalidData) && ChainFirst(data).Ok?
    decreases |data|
  {
    if |data| >= 4 {
      var prefix := U32At(data, 0);
      if 4 < prefix <= |data| {
        ChainsAgreeIff(data[prefix..]);
      } else if prefix == 0 && |data| > 4 {
        assert data[4 + (|data| - 4)..] == [];
      }
    }
  }

  /** One entry of one byte behind a zero prefix. */
  lemma {:induction false} ZeroPrefixExample()
    ensures ChainFirst([0, 0, 0, 0, 7]) == Ok([[7]]) && ChainNext([0, 0, 0, 0, 7]) == Err(InvalidData)
  {
    var data := [0, 0, 0, 0, 7];
    assert U32At(data, 0) == 0;
    assert data[4..5] == [7] && data[5..] == [];
    assert [data[4..5]] + [] == [[7]];
  }

  /** A chain as servers write it: every entry with its own length in front, or the
      last with zero instead. */
  function Chain(entries: seq<seq<byte>>, lastZero: bool): seq<byte>
    requires forall i :: 0 <= i < |entries| ==> 0 < |entries[i]| < U32_LIMIT - 4
  {
    if entries == [] then []
    else
      (if lastZero && |entries| == 1 then U32(0) else U32(|entries[0]| + 4))
      + entries[0] + Chain(entries[1..], lastZero)
  }

  /** The first record of a chain: its prefix, its entry, and the rest. */
  lemma {:induction false} Record(prefix: nat, entry: seq<byte>, rest: seq<byte>)
    requires prefix < U32_LIMIT
    ensures
      var data := U32(prefix) + entry + rest;
      && U32At(data, 0) == prefix
      && data[4..4 + |entry|] == entry && data[4 + |entry|..] == rest
  {
    hide U32, U32At;
    var data := U32(prefix) + entry + rest;
    assert data[0..4] == U32(prefix);
    U32RoundTrip(data, 0, prefix);
  }

  /** Reading a chain gives its entries back, any number of them. */
  lemma {:induction false} ChainRoundTrip(entries: seq<seq<byte>>, lastZero: bool)
    requires forall i :: 0 <= i < |entries| ==> 0 < |entries[i]| < U32_LIMIT - 4
    ensures ChainFirst(Chain(entries, lastZero)) == Ok(entries)
    ensures ChainNext(Chain(entries, lastZero)) == if lastZero && entries != [] then Err(InvalidData) else Ok(entries)
    decreases |entries|
  {
    hide U32, U32At;
    if entries != [] {
      var prefix := if lastZero && |entries| == 1 then 0 else |entries[0]| + 4;
      ChainRoundTrip(entries[1..], lastZero);
      Record(prefix, entries[0], Chain(entries[1..], lastZero));
      assert [entries[0]] + entries[1..] == entries;
    }
  }

  // ----- The two replies -----

  function ParseEach(raws: seq<seq<byte>>): Result<seq<DirInfo>> {
    if raws == [] then Ok([])
    else
      var first :- ParseDirInfo(raws[0]);
      var others :- ParseEach(raws[1..]);
      Ok([first] + others)
  }

  /** The chain walked and parsed entry by entry, as the program does. */
  function Entries(data: seq<byte>, zeroMeansRest: bool): Result<seq<DirInfo>>
    decreases |data|
  {
    if data == [] then Ok([])
    else if |data| < 4 then Err(InvalidData)
    else
      var prefix := U32At(data, 0);
      if (prefix == 0 && !zeroMeansRest) || 0 < prefix < 4 then Err(InvalidData)
      else
        var size := if prefix == 0 then |data| - 4 else prefix - 4;
        if size == 0 then Ok([])
        else if |data| - 4 < size then Err(InvalidData)
        else
          var first :- ParseDirInfo(data[4..4 + size]);
          var others :- Entries(data[4 + size..], zeroMeansRest);
          Ok([first] + others)
  }

  /** It succeeds when the chain is well formed and every entry parses. */
  lemma {:induction false} EntriesOfChain(data: seq<byte>, zeroMeansRest: bool)
    ensures
      var chain := if zeroMeansRest then ChainFirst(data) else ChainNext(data);
      && (Entries(data, zeroMeansRest).Ok? <==> chain.Ok? && ParseEach(chain.value).Ok?)
      && (Entries(data, zeroMeansRest).Ok? ==> Entries(data, zeroMeansRest) == ParseEach(chain.value))
    decreases |data|
  {
    if |data| >= 4 {
      hide ParseDirInfo;
      var prefix := U32At(data, 0);
      if prefix == 0 || 4 < prefix <= |data| {
        var size := if prefix == 0 then |data| - 4 else prefix - 4;
        EntriesOfChain(data[4 + size..], zeroMeansRest);
        var others := if zeroMeansRest then ChainFirst(data[4 + size..]) else ChainNext(data[4 + size..]);
        if others.Ok? {
          assert ([data[4..4 + size]] + others.value)[1..] == others.value;
        }
      }
    }
  }

  /** How big the next record's entry is; nothing at the end of the chain. */
  function NextSize(data: seq<byte>, zeroMeansRest: bool): (r: Result<Option<nat>>)
    ensures r.Ok? && r.value.Some? ==> 0 < r.value.value && 4 + r.value.value <= |data|
  {
    if data == [] then Ok(None)
    else if |data| < 4 then Err(InvalidData)
    else
      var prefix := U32At(data, 0);
      if (prefix == 0 && !zeroMeansRest) || 0 < prefix < 4 then Err(InvalidData)
      else
        var size := if prefix == 0 then |data| - 4 else prefix - 4;
        if size == 0 then Ok(None)
        else if |data| - 4 < size then Err(InvalidData)
        else Ok(Some(size))
  }

  lemma {:induction false} EntriesStep(data: seq<byte>, zeroMeansRest: bool)
    ensures
      match NextSize(data, zeroMeansRest)
      case Err(e) => Entries(data, zeroMeansRest) == Err(e)
      case Ok(None) => Entries(data, zeroMeansRest) == Ok([])
      case Ok(Some(size)) =>
        match ParseDirInfo(data[4..4 + size])
        case Err(e) => Entries(data, zeroMeansRest) == Err(e)
        case Ok(entry) =>
          Entries(data, zeroMeansRest) == Prepend([entry], Entries(data[4 + size..], zeroMeansRest))
  {
    hide ParseDirInfo, U32At;
  }

  /** The prefix of a record, as the loops read it. */
  method ReadPrefix(left: seq<byte>, zeroMeansRest: bool) returns (r: Result<Option<nat>>)
    ensures r == NextSize(left, zeroMeansRest)
  {
    if left == [] {
      return Ok(None);
    }
    if |left| < 4 {
      return Err(InvalidData);
    }
    var prefix := U32At(left, 0);
    if (prefix == 0 && !zeroMeansRest) || 0 < prefix < 4 {
      return Err(InvalidData);
    }
    var size := if prefix == 0 then |left| - 4 else prefix - 4;
    if size == 0 {
      return Ok(None);
    }
    if |left| - 4 < size {
      return Err(InvalidData);
    }
    return Ok(Some(size));
  }

  /** The loop of both replies: it consumes input at every turn. */
  method WalkChain(data: seq<byte>, zeroMeansRest: bool) returns (r: Result<seq<DirInfo>>)
    ensures r == Entries(data, zeroMeansRest)
  {
    hide ParseDirInfo, Entries, NextSize;
    var left := data;
    var info: seq<DirInfo> := [];
    PrependTwice([], [], Entries(left, zeroMeansRest));
    while true
      invariant Entries(data, zeroMeansRest) == Prepend(info, Entries(left, zeroMeansRest))
      decreases |left|
    {
      EntriesStep(left, zeroMeansRest);
      var size := ReadPrefix(left, zeroMeansRest);
      if size.Err? {
        return Err(size.error);
      }
      if size.value.None? {
        break;
      }
      var entry := ReadDirInfo(left[4..4 + size.value.value]);
      if entry.Err? {
        return Err(entry.error);
      }
      PrependTwice(info, [entry.value], Entries(left[4 + size.value.value..], zeroMeansRest));
      info := info + [entry.value];
      left := left[4 + size.value.value..];
    }
    assert info + [] == info;
    return Ok(info);
  }

  datatype Page = Page(sid: nat, end: bool, info: seq<DirInfo>)

  /** The entry count must match, and a page that is not the last is never empty. */
  function Checked(sid: nat, count: nat, end: bool, info: seq<DirInfo>): (r: Result<Page>)
    ensures r.Ok? ==> r.value.info == info && r.value.end == end && |info| == count && (end || info != [])
  {
    if |info| != count || (!end && count == 0) then Err(InvalidData) else Ok(Page(sid, end, info))
  }

  function FirstPage(parameter: seq<byte>, data: seq<byte>): (r: Result<Page>)
    ensures r.Ok? ==> r.value.end || r.value.info != []
  {
    if |parameter| < 10 then Err(InvalidData)
    else
      var info :- Entries(data, true);
      Checked(U16At(parameter, 0), U16At(parameter, 2), U16At(parameter, 4) != 0, info)
  }

  function NextPage(parameter: seq<byte>, data: seq<byte>, sid: nat): (r: Result<Page>)
    ensures r.Ok? ==> r.value.end || r.value.info != []
  {
    if |parameter| < 4 then Err(InvalidData)
    else
      var info :- Entries(data, false);
      Checked(sid, U16At(parameter, 0), U16At(parameter, 2) != 0, info)
  }

  lemma {:induction false} EachParsed(raws: seq<seq<byte>>)
    ensures ParseEach(raws).Ok? ==> |ParseEach(raws).value| == |raws|
    decreases |raws|
  {
    if raws != [] {
      EachParsed(raws[1..]);
    }
  }

  /** A first page is accepted if and only if its ten parameter bytes are there, its chain
      is well formed, every entry parses, the count is theirs, and it is the end or not
      empty; it then carries the search id and any non-zero end flag. */
  lemma {:induction false} FirstPageIff(parameter: seq<byte>, data: seq<byte>, page: Page)
    ensures FirstPage(parameter, data) == Ok(page) <==>
              && |parameter| >= 10
              && ChainFirst(data).Ok? && ParseEach(ChainFirst(data).value) == Ok(page.info)
              && |ChainFirst(data).value| == U16At(parameter, 2)
              && page.sid == U16At(parameter, 0) && (page.end <==> U16At(parameter, 4) != 0)
              && (page.end || page.info != [])
  {
    hide Entries, ChainFirst, ParseEach, U16At;
    EntriesOfChain(data, true);
    if ChainFirst(data).Ok? {
      EachParsed(ChainFirst(data).value);
    }
  }

  /** And a later page: four bytes, the stricter chain, and the search id it was asked with. */
  lemma {:induction false} NextPageIff(parameter: seq<byte>, data: seq<byte>, sid: nat, page: Page)
    ensures NextPage(parameter, data, sid) == Ok(page) <==>
              && |parameter| >= 4
              && ChainNext(data).Ok? && ParseEach(ChainNext(data).value) == Ok(page.info)
              && |ChainNext(data).value| == U16At(parameter, 0)
              && page.sid == sid && (page.end <==> U16At(parameter, 2) != 0)
              && (page.end || page.info != [])
  {
    hide Entries, ChainNext, ParseEach, U16At;
    EntriesOfChain(data, false);
    if ChainNext(data).Ok? {
      EachParsed(ChainNext(data).value);
    }
  }

  method ParseFindFirst2(parameter: seq<byte>, data: seq<byte>) returns (r: Result<Page>)
    ensures r == FirstPage(parameter, data)
  {
    var cursor := new Cursor(parameter);
    if |parameter| < 10 {
      return Err(InvalidData);
    }
    var sid := cursor.GetU16();
    var count := cursor.GetU16();
    var end := cursor.GetU16();
    var info := WalkChain(data, true);
    if info.Err? {
      return Err(info.error);
    }
    return Checked(sid.value, count.value, end.value != 0, info.value);
  }

  method ParseFindNext2(parameter: seq<byte>, data: seq<byte>, sid: nat) returns (r: Result<Page>)
    ensures r == NextPage(parameter, data, sid)
  {
    var cursor := new Cursor(parameter);
    if |parameter| < 4 {
      return Err(InvalidData);
    }
    var count := cursor.GetU16();
    var end := cursor.GetU16();
    var info := WalkChain(data, false);
    if info.Err? {
      return Err(info.error);
    }
    return Checked(sid, count.value, end.value != 0, info.value);
  }

  // ----- Whole pages -----

  datatype Written = Written(info: DirInfo, extras: Extras)

  predicate ValidWritten(w: Written) {
    && ValidInfo(w.info) && ValidExtras(w.info, w.extras)
    && 60 + |EncodeUtf16(w.info.name)| + |w.extras.padding| < U32_LIMIT - 4
  }

  function Raws(ws: seq<Written>): (raws: seq<seq<byte>>)
    requires forall i :: 0 <= i < |ws| ==> ValidWritten(ws[i])
    ensures |raws| == |ws| && forall i :: 0 <= i < |raws| ==> 0 < |raws[i]| < U32_LIMIT - 4
  {
    if ws == [] then []
    else
      assert ValidWritten(ws[0]);
      [DirInfoBytes(ws[0].info, ws[0].extras)] + Raws(ws[1..])
  }

  function Infos(ws: seq<Written>): (infos: seq<DirInfo>)
    ensures |infos| == |ws|
  {
    if ws == [] then [] else [ws[0].info] + Infos(ws[1..])
  }

  lemma {:induction false} ParseEachRaw(ws: seq<Written>)
    requires forall i :: 0 <= i < |ws| ==> ValidWritten(ws[i])
    ensures ParseEach(Raws(ws)) == Ok(Infos(ws))
    decreases |ws|
  {
    hide ParseDirInfo, DirInfoBytes;
    if ws != [] {
      DirInfoRoundTrip(ws[0].info, ws[0].extras);
      ParseEachRaw(ws[1..]);
      assert Raws(ws)[1..] == Raws(ws[1..]);
    }
  }

  lemma {:induction false} EntriesOfWritten(ws: seq<Written>, lastZero: bool)
    requires forall i :: 0 <= i < |ws| ==> ValidWritten(ws[i])
    ensures Entries(Chain(Raws(ws), lastZero), true) == Ok(Infos(ws))
    ensures !lastZero || ws == [] ==> Entries(Chain(Raws(ws), lastZero), false) == Ok(Infos(ws))
  {
    hide ParseDirInfo, DirInfoBytes, Entries, ChainFirst, ChainNext, ParseEach, Chain;
    var chain := Chain(Raws(ws), lastZero);
    ChainRoundTrip(Raws(ws), lastZero);
    ParseEachRaw(ws);
    EntriesOfChain(chain, true);
    EntriesOfChain(chain, false);
  }

  /** A page a server writes, any number of entries with any padding, is read back:
      the first reply whatever the last prefix, the others when it is not zero. */
  lemma {:induction false} PageRoundTrip(ws: seq<Written>, lastZero: bool, sid: nat, end: bool, rest: seq<byte>)
    requires forall i :: 0 <= i < |ws| ==> ValidWritten(ws[i])
    requires |ws| < U16_LIMIT && sid < U16_LIMIT && |rest| >= 4 && (end || ws != [])
    ensures
      var flag := if end then 1 else 0;
      var chain := Chain(Raws(ws), lastZero);
      && FirstPage(U16(sid) + U16(|ws|) + U16(flag) + rest, chain) == Ok(Page(sid, end, Infos(ws)))
      && (!lastZero || ws == [] ==> NextPage(U16(|ws|) + U16(flag) + rest, chain, sid) == Ok(Page(sid, end, Infos(ws))))
  {
    hide Entries, Chain, Raws, Infos, DirInfoBytes, ParseDirInfo;
    var flag := if end then 1 else 0;
    EntriesOfWritten(ws, lastZero);
    var first := U16(sid) + U16(|ws|) + U16(flag) + rest;
    assert first[0..2] == U16(sid) && first[2..4] == U16(|ws|) && first[4..6] == U16(flag);
    U16RoundTrip(first, 0, sid);
    U16RoundTrip(first, 2, |ws|);
    U16RoundTrip(first, 4, flag);
    var next := U16(|ws|) + U16(flag) + rest;
    assert next[0..2] == U16(|ws|) && next[2..4] == U16(flag);
    U16RoundTrip(next, 0, |ws|);
    U16RoundTrip(next, 2, flag);
  }
}
