/** NTLM messages: a header of fields and security buffers, followed by the bytes
    the buffers point to ([MS-NLMP] section 2.2.1). */
module NtlmPackets {
  import opened Base
  import opened Cursors
  import opened Texts

  /** An entry of the header as the packet keeps it; a buffer's position counts
      from the start of the extra part. */
  datatype Entry = Binary(data: seq<byte>) | Buffer(length: nat, capacity: nat, position: nat)

  function EntryLen(e: Entry): nat { if e.Binary? then |e.data| else 8 }

  function LenFrom(entries: seq<Entry>, i: nat): nat
    requires i <= |entries|
    decreases |entries| - i
  {
    if i == |entries| then 0 else EntryLen(entries[i]) + LenFrom(entries, i + 1)
  }

  function BaseLen(entries: seq<Entry>): nat { LenFrom(entries, 0) }

  /** A buffer header; each field has its own limit. */
  function WriteBuffer(length: nat, capacity: nat, position: nat): Result<seq<byte>> {
    if length >= U16_LIMIT || capacity >= U16_LIMIT || position >= U32_LIMIT then Err(InvalidPacket)
    else Ok(U16(length) + U16(capacity) + U32(position))
  }

  function WriteEntry(e: Entry, base: nat): Result<seq<byte>> {
    match e
    case Binary(data) => Ok(data)
    case Buffer(length, capacity, position) => WriteBuffer(length, capacity, base + position)
  }

  function WriteHeader(entries: seq<Entry>, i: nat, base: nat): Result<seq<byte>>
    requires i <= |entries|
    decreases |entries| - i
  {
    if i == |entries| then Ok([])
    else
      var first :- WriteEntry(entries[i], base);
      var rest :- WriteHeader(entries, i + 1, base);
      Ok(first + rest)
  }

  /** Reads a buffer header at a cursor. */
  function ParseBuffer(s: seq<byte>, at: nat): (r: Result<Entry>)
    ensures r.Ok? ==> r.value.Buffer?
  {
    if at + 8 > |s| then Err(Panic) else Ok(Buffer(U16At(s, at), U16At(s, at + 2), U32At(s, at + 4)))
  }

  /** The bytes a buffer points to, counted from the start of the whole message. */
  function Extract(s: seq<byte>, b: Entry): Result<seq<byte>>
    requires b.Buffer?
  {
    if b.position + b.length > |s| then Err(Panic) else Ok(s[b.position..b.position + b.length])
  }

  // ----- What was appended, and what is written for it -----

  datatype Item = Field(bytes: seq<byte>) | Payload(bytes: seq<byte>)

  function Size(i: Item): nat { if i.Field? then |i.bytes| else 8 }

  /** Where item i's field or buffer header starts. */
  function HeaderAt(items: seq<Item>, i: nat): nat
    requires i <= |items|
  {
    if i == 0 then 0 else HeaderAt(items, i - 1) + Size(items[i - 1])
  }

  /** The payloads before item i, in the order they were appended. */
  function Extra(items: seq<Item>, i: nat): seq<byte>
    requires i <= |items|
  {
    if i == 0 then []
    else Extra(items, i - 1) + (if items[i - 1].Payload? then items[i - 1].bytes else [])
  }

  function EntryFor(items: seq<Item>, i: nat): Entry
    requires i < |items|
  {
    match items[i]
    case Field(bytes) => Binary(bytes)
    case Payload(bytes) => Buffer(|bytes|, |bytes|, |Extra(items, i)|)
  }

  ghost predicate Represents(entries: seq<Entry>, extra: seq<byte>, items: seq<Item>) {
    && |entries| == |items|
    && (forall i :: 0 <= i < |items| ==> entries[i] == EntryFor(items, i))
    && extra == Extra(items, |items|)
  }

  /** Every payload fits its 16-bit length and every position its 32 bits. */
  predicate Fits(items: seq<Item>) {
    forall i :: 0 <= i < |items| && items[i].Payload? ==>
      |items[i].bytes| < U16_LIMIT && HeaderAt(items, |items|) + |Extra(items, i)| < U32_LIMIT
  }

  lemma {:induction false} ItemsGrow(items: seq<Item>, more: Item, i: nat)
    requires i <= |items|
    ensures HeaderAt(items + [more], i) == HeaderAt(items, i)
    ensures Extra(items + [more], i) == Extra(items, i)
    decreases i
  {
    if i > 0 {
      ItemsGrow(items, more, i - 1);
    }
  }

  /** Extra parts only grow: each is a prefix of the whole. */
  lemma {:induction false} ExtraPrefix(items: seq<Item>, i: nat, j: nat)
    requires i <= j <= |items|
    ensures |Extra(items, i)| <= |Extra(items, j)| && Extra(items, j)[..|Extra(items, i)|] == Extra(items, i)
    decreases j
  {
    if i < j {
      ExtraPrefix(items, i, j - 1);
    }
  }

  lemma {:induction false} PlaceNext(items: seq<Item>, i: nat)
    requires i < |items|
    ensures HeaderAt(items, i + 1) == HeaderAt(items, i) + Size(items[i])
  {
  }

  lemma {:induction false} SizesMatch(entries: seq<Entry>, extra: seq<byte>, items: seq<Item>)
    requires Represents(entries, extra, items)
    ensures |entries| == |items|
  {
  }

  lemma {:induction false} EntryLenIs(entries: seq<Entry>, extra: seq<byte>, items: seq<Item>, i: nat)
    requires Represents(entries, extra, items) && i < |items|
    ensures |entries| == |items| && EntryLen(entries[i]) == Size(items[i])
  {
    hide Extra;
    assert entries[i] == EntryFor(items, i);
  }

  lemma {:induction false} BaseLenFrom(entries: seq<Entry>, extra: seq<byte>, items: seq<Item>, i: nat)
    requires Represents(entries, extra, items) && i <= |items|
    ensures |entries| == |items| && HeaderAt(items, i) + LenFrom(entries, i) == HeaderAt(items, |items|)
    decreases |items| - i
  {
    hide Represents, HeaderAt, EntryLen, Size;
    SizesMatch(entries, extra, items);
    if i < |items| {
      BaseLenFrom(entries, extra, items, i + 1);
      EntryLenIs(entries, extra, items, i);
      PlaceNext(items, i);
    }
  }

  lemma {:induction false} EntrySize(entries: seq<Entry>, extra: seq<byte>, items: seq<Item>, base: nat, i: nat)
    requires Represents(entries, extra, items) && i < |items| && WriteEntry(entries[i], base).Ok?
    ensures |WriteEntry(entries[i], base).value| == Size(items[i])
  {
  }

  lemma {:induction false} HeaderLength(entries: seq<Entry>, extra: seq<byte>, items: seq<Item>, base: nat, i: nat)
    requires Represents(entries, extra, items) && i <= |items| && WriteHeader(entries, i, base).Ok?
    ensures HeaderAt(items, i) + |WriteHeader(entries, i, base).value| == HeaderAt(items, |items|)
    decreases |items| - i
  {
    if i < |items| {
      EntrySize(entries, extra, items, base, i);
      HeaderLength(entries, extra, items, base, i + 1);
    }
  }

  predicate StandsAt(bytes: seq<byte>, at: int, part: seq<byte>) {
    0 <= at && at + |part| <= |bytes| && bytes[at..at + |part|] == part
  }

  lemma {:induction false} StandsFirst(part: seq<byte>, rest: seq<byte>)
    ensures StandsAt(part + rest, 0, part)
  {
  }

  lemma {:induction false} StandsLater(first: seq<byte>, rest: seq<byte>, at: int, part: seq<byte>)
    requires StandsAt(rest, at, part)
    ensures StandsAt(first + rest, |first| + at, part)
  {
    assert (first + rest)[|first| + at..|first| + at + |part|] == rest[at..at + |part|];
  }

  /** The header from entry i on is that entry and the header from the next one on. */
  lemma {:induction false} HeaderNext(entries: seq<Entry>, base: nat, i: nat)
    requires i < |entries| && WriteHeader(entries, i, base).Ok?
    ensures WriteEntry(entries[i], base).Ok? && WriteHeader(entries, i + 1, base).Ok?
    ensures WriteHeader(entries, i, base).value
         == WriteEntry(entries[i], base).value + WriteHeader(entries, i + 1, base).value
  {
  }

  /** In the written header, each item's bytes stand at its place. */
  lemma {:induction false} HeaderLayout(entries: seq<Entry>, extra: seq<byte>, items: seq<Item>, base: nat, i: nat,
                                        k: nat)
    requires Represents(entries, extra, items) && i <= k < |items| && WriteHeader(entries, i, base).Ok?
    ensures WriteEntry(entries[k], base).Ok?
    ensures StandsAt(WriteHeader(entries, i, base).value, HeaderAt(items, k) - HeaderAt(items, i),
      WriteEntry(entries[k], base).value)
    decreases k - i
  {
    hide Represents, WriteEntry, WriteHeader, HeaderAt, Extra, Size, StandsAt;
    SizesMatch(entries, extra, items);
    HeaderNext(entries, base, i);
    EntrySize(entries, extra, items, base, i);
    var first := WriteEntry(entries[i], base).value;
    var rest := WriteHeader(entries, i + 1, base).value;
    if i < k {
      PlaceNext(items, i);
      HeaderLayout(entries, extra, items, base, i + 1, k);
      StandsLater(first, rest, HeaderAt(items, k) - HeaderAt(items, i + 1), WriteEntry(entries[k], base).value);
    } else {
      StandsFirst(first, rest);
    }
  }

  lemma {:induction false} HeaderFits(entries: seq<Entry>, extra: seq<byte>, items: seq<Item>, base: nat, i: nat)
    requires Represents(entries, extra, items) && i <= |items|
    ensures WriteHeader(entries, i, base).Ok? <==>
              forall k :: i <= k < |items| && items[k].Payload? ==>
                  |items[k].bytes| < U16_LIMIT && base + |Extra(items, k)| < U32_LIMIT
    decreases |items| - i
  {
    if i < |items| {
      HeaderFits(entries, extra, items, base, i + 1);
    }
  }

  function NtlmBytes(entries: seq<Entry>, extra: seq<byte>): Result<seq<byte>> {
    var header :- WriteHeader(entries, 0, BaseLen(entries));
    Ok(header + extra)
  }

  /** A packet is written exactly when every payload and position fits. */
  lemma {:induction false} ToBytesIff(entries: seq<Entry>, extra: seq<byte>, items: seq<Item>)
    requires Represents(entries, extra, items)
    ensures NtlmBytes(entries, extra).Ok? <==> Fits(items)
  {
    BaseLenFrom(entries, extra, items, 0);
    HeaderFits(entries, extra, items, BaseLen(entries), 0);
  }

  /** What is written for an item stands at the item's place. */
  lemma {:induction false} WrittenAt(entries: seq<Entry>, extra: seq<byte>, items: seq<Item>, i: nat)
    requires Represents(entries, extra, items) && i < |items| && NtlmBytes(entries, extra).Ok?
    ensures
      var out := NtlmBytes(entries, extra).value;
      var at := HeaderAt(items, i);
      && BaseLen(entries) == HeaderAt(items, |items|)
      && |out| == BaseLen(entries) + |extra| && out[BaseLen(entries)..] == extra
      && at + Size(items[i]) <= BaseLen(entries)
      && WriteEntry(entries[i], BaseLen(entries)) == Ok(out[at..at + Size(items[i])])
  {
    hide WriteEntry, WriteHeader, Represents, Extra, Size;
    var base := BaseLen(entries);
    BaseLenFrom(entries, extra, items, 0);
    HeaderLength(entries, extra, items, base, 0);
    HeaderLayout(entries, extra, items, base, 0, i);
    EntrySize(entries, extra, items, base, i);
    var header := WriteHeader(entries, 0, base).value;
    var at := HeaderAt(items, i);
    assert (header + extra)[at..at + Size(items[i])] == header[at..at + Size(items[i])];
  }

  /** The payload of an item within the extra part. */
  lemma {:induction false} PayloadAt(items: seq<Item>, i: nat)
    requires i < |items| && items[i].Payload?
    ensures
      var from, n := |Extra(items, i)|, |items[i].bytes|;
      from + n <= |Extra(items, |items|)| && Extra(items, |items|)[from..from + n] == items[i].bytes
  {
    ExtraPrefix(items, i + 1, |items|);
    var extra := Extra(items, |items|);
    var from, n := |Extra(items, i)|, |items[i].bytes|;
    assert extra[from..from + n] == extra[..from + n][from..];
  }

  lemma {:induction false} BufferRoundTrip(s: seq<byte>, at: nat, length: nat, capacity: nat, position: nat)
    requires WriteBuffer(length, capacity, position).Ok?
    requires at + 8 <= |s| && s[at..at + 8] == WriteBuffer(length, capacity, position).value
    ensures ParseBuffer(s, at) == Ok(Buffer(length, capacity, position))
  {
    var w := s[at..at + 8];
    var l, c, p := U16(length), U16(capacity), U32(position);
    assert w == l + c + p;
    assert s[at..at + 2] == w[..2] == l;
    assert s[at + 2..at + 4] == w[2..4] == c by {
      assert w[2] == c[0] && w[3] == c[1];
    }
    assert s[at + 4..at + 8] == w[4..] == p;
    U16RoundTrip(s, at, length);
    U16RoundTrip(s, at + 2, capacity);
    U32RoundTrip(s, at + 4, position);
  }

  /** In a written buffer header the length comes first, then the capacity, then the position. */
  lemma {:induction false} BufferFields(length: nat, capacity: nat, position: nat)
    ensures WriteBuffer(length, capacity, position).Ok? <==>
              length < 0x1_0000 && capacity < 0x1_0000 && position < 0x1_0000_0000
    ensures WriteBuffer(length, capacity, position).Ok? ==>
              var w := WriteBuffer(length, capacity, position).value;
              |w| == 8 && U16At(w, 0) == length && U16At(w, 2) == capacity && U32At(w, 4) == position
  {
    if WriteBuffer(length, capacity, position).Ok? {
      var w := WriteBuffer(length, capacity, position).value;
      assert w[0..8] == w;
      BufferRoundTrip(w, 0, length, capacity, position);
    }
  }

  lemma {:induction false} DropThenSlice(s: seq<byte>, base: nat, from: nat, to: nat)
    requires from <= to && base + to <= |s|
    ensures s[base..][from..to] == s[base + from..base + to]
  {
  }

  lemma {:induction false} PayloadExtracts(out: seq<byte>, base: nat, extra: seq<byte>, at: nat, from: nat,
                                           bytes: seq<byte>)
    requires base + |extra| == |out| && out[base..] == extra
    requires from + |bytes| <= |extra| && extra[from..from + |bytes|] == bytes
    requires at + 8 <= |out| && WriteBuffer(|bytes|, |bytes|, base + from) == Ok(out[at..at + 8])
    ensures ParseBuffer(out, at).Ok? && ParseBuffer(out, at).value.Buffer?
    ensures Extract(out, ParseBuffer(out, at).value) == Ok(bytes)
  {
    hide WriteBuffer, ParseBuffer;
    BufferRoundTrip(out, at, |bytes|, |bytes|, base + from);
    DropThenSlice(out, base, from, from + |bytes|);
  }

  /** The layout round trip: in the written message each field stands at its place,
      and each security buffer, parsed at its place, extracts the bytes appended. */
  lemma {:induction false} LayoutRoundTrip(entries: seq<Entry>, extra: seq<byte>, items: seq<Item>, i: nat)
    requires Represents(entries, extra, items) && i < |items| && NtlmBytes(entries, extra).Ok?
    ensures
      var out := NtlmBytes(entries, extra).value;
      var at := HeaderAt(items, i);
      && |out| == BaseLen(entries) + |extra|
      && BaseLen(entries) == HeaderAt(items, |items|)
      && at + Size(items[i]) <= BaseLen(entries)
      && (items[i].Field? ==> out[at..at + |items[i].bytes|] == items[i].bytes)
      && (items[i].Payload? ==>
            && ParseBuffer(out, at).Ok? && ParseBuffer(out, at).value.Buffer?
            && Extract(out, ParseBuffer(out, at).value) == Ok(items[i].bytes))
  {
    hide WriteHeader, BaseLen, HeaderAt;
    WrittenAt(entries, extra, items, i);
    if items[i].Payload? {
      PayloadAt(items, i);
      PayloadExtracts(NtlmBytes(entries, extra).value, BaseLen(entries), extra, HeaderAt(items, i), |Extra(items, i)|,
        items[i].bytes);
    }
  }

  class Packet {
    var entries: seq<Entry>
    var extra: seq<byte>

    /** What has been appended so far. */
    ghost var items: seq<Item>

    ghost predicate Valid()
      reads this
    {
      Represents(entries, extra, items)
    }

    constructor ()
      ensures Valid() && items == []
    {
      entries, extra, items := [], [], [];
    }

    ghost method Grown(more: Item)
      requires Represents(entries, extra, items)
      ensures forall i :: 0 <= i < |items| ==> EntryFor(items + [more], i) == EntryFor(items, i)
      ensures Extra(items + [more], |items|) == extra
    {
      forall i | 0 <= i <= |items| ensures Extra(items + [more], i) == Extra(items, i) {
        ItemsGrow(items, more, i);
      }
    }

    method AppendBinary(data: seq<byte>)
      requires Valid()
      modifies this
      ensures Valid() && items == old(items) + [Field(data)]
    {
      Grown(Field(data));
      entries := entries + [Binary(data)];
      items := items + [Field(data)];
    }

    method AppendU32(value: nat)
      requires Valid() && value < U32_LIMIT
      modifies this
      ensures Valid() && items == old(items) + [Field(U32(value))]
    {
      AppendBinary(U32(value));
    }

    method AppendBuffer(data: seq<byte>)
      requires Valid()
      modifies this
      ensures Valid() && items == old(items) + [Payload(data)]
    {
      Grown(Payload(data));
      entries := entries + [Buffer(|data|, |data|, |extra|)];
      extra := extra + data;
      items := items + [Payload(data)];
    }

    method AppendString(msg: seq<nat>, unicode: bool)
      requires Valid() && IsText(msg)
      modifies this
      ensures Valid() && items == old(items) + [Payload(EncodeText(msg, unicode))]
    {
      AppendBuffer(EncodeText(msg, unicode));
    }

    method ComputeBaseLen() returns (n: nat)
      ensures n == BaseLen(entries)
    {
      n := 0;
      for i := 0 to |entries|
        invariant n + LenFrom(entries, i) == BaseLen(entries)
      {
        n := n + EntryLen(entries[i]);
      }
    }

    method ToBytes() returns (r: Result<seq<byte>>)
      requires Valid()
      ensures r == NtlmBytes(entries, extra)
      ensures r.Ok? <==> Fits(items)
    {
      ToBytesIff(entries, extra, items);
      var offset := ComputeBaseLen();
      var out: seq<byte> := [];
      PrependTwice([], [], WriteHeader(entries, 0, offset));
      for i := 0 to |entries|
        invariant WriteHeader(entries, 0, offset) == Prepend(out, WriteHeader(entries, i, offset))
      {
        var written := WriteEntry(entries[i], offset);
        if written.Err? {
          return Err(written.error);
        }
        PrependTwice(out, written.value, WriteHeader(entries, i + 1, offset));
        out := out + written.value;
      }
      assert out + [] == out;
      return Ok(out + extra);
    }
  }

  // ----- The type 2 message -----

  /** "NTLMSSP" and a zero byte. */
  const NTLMSSP_MAGIC: seq<byte> := [0x4e, 0x54, 0x4c, 0x4d, 0x53, 0x53, 0x50, 0x00]
  const NTLM_MSG_CHALLENGE: nat := 2

  /** The flags the program knows, from the least significant on; the first says that
      strings are UTF-16. */
  function KnownFlags(): seq<bool> {
    [true, true, true, false, true, true, true, true,
     true, true, true, true, true, true, true, true,
     true, true, true, true, true, true, true, true,
     false, true, false, false, false, true, true, true]
  }

  datatype Challenge = Challenge(target: seq<nat>, flags: nat, challenge: seq<byte>, info: seq<byte>)

  /** A string that does not decode is an invalid packet. */
  function DecodeTarget(raw: seq<byte>, unicode: bool): Result<seq<nat>> {
    match DecodeText(raw, unicode)
    case Ok(text) => Ok(text)
    case Err(e) => if e == Panic then Err(Panic) else Err(InvalidPacket)
  }

  function ParseChallenge(msg: seq<byte>): Result<Challenge> {
    if |msg| < 8 then Err(Panic)
    else if msg[..8] != NTLMSSP_MAGIC then Err(InvalidPacket)
    else if |msg| < 12 then Err(Panic)
    else if U32At(msg, 8) != NTLM_MSG_CHALLENGE then Err(InvalidPacket)
    else if |msg| < 48 then Err(Panic)
    else
      var targetBuffer :- ParseBuffer(msg, 12);
      var flags := Truncate(U32At(msg, 20), KnownFlags());
      var infoBuffer :- ParseBuffer(msg, 40);
      var rawTarget :- Extract(msg, targetBuffer);
      var target :- DecodeTarget(rawTarget, Bit(flags, 0));
      var info :- Extract(msg, infoBuffer);
      Ok(Challenge(target, flags, msg[24..32], info))
  }

  /** The flags that are kept: all but these five. */
  lemma {:induction false} FlagKeptIff(n: nat, k: nat)
    ensures Bit(Truncate(n, KnownFlags()), k) <==> Bit(n, k) && k < 32 && k !in {3, 24, 26, 27, 28}
  {
    hide Bit, Truncate;
    TruncateBit(n, KnownFlags(), k);
  }

  lemma {:induction false} UnicodeFlag(flags: nat)
    ensures Bit(Truncate(flags, KnownFlags()), 0) <==> flags % 2 == 1
  {
    TruncateBit(flags, KnownFlags(), 0);
  }

  /** Where the bytes a buffer header points to end. */
  function EndOf(msg: seq<byte>, at: nat): nat
    requires at + 8 <= |msg|
  {
    U32At(msg, at + 4) + U16At(msg, at)
  }

  function TargetOf(msg: seq<byte>): seq<byte>
    requires |msg| >= 48 && EndOf(msg, 12) <= |msg|
  {
    msg[U32At(msg, 16)..EndOf(msg, 12)]
  }

  /** A UTF-16 target panics at a last single byte, if it is sound up to there. */
  predicate OddTarget(msg: seq<byte>)
    requires |msg| >= 48 && EndOf(msg, 12) <= |msg|
  {
    var target := TargetOf(msg);
    U32At(msg, 20) % 2 == 1 && |target| % 2 == 1 && SoundSoFar(target[..|target| - 1])
  }

  predicate TargetDecodes(msg: seq<byte>)
    requires |msg| >= 48 && EndOf(msg, 12) <= |msg|
  {
    DecodeText(TargetOf(msg), U32At(msg, 20) % 2 == 1).Ok?
  }

  /** Exactly when parsing a type 2 message panics: it is cut off within its header, or
      one of the two buffers that are read points past its end, or the target is UTF-16
      and stops in the middle of a unit. */
  lemma {:induction false} ChallengePanicIff(msg: seq<byte>)
    ensures ParseChallenge(msg) == Err(Panic) <==>
              || |msg| < 8
              || (&& msg[..8] == NTLMSSP_MAGIC
                  && (|| |msg| < 12
                      || (&& U32At(msg, 8) == NTLM_MSG_CHALLENGE
                          && (|| |msg| < 48
                              || EndOf(msg, 12) > |msg|
                              || OddTarget(msg)
                              || (TargetDecodes(msg) && EndOf(msg, 40) > |msg|)))))
  {
    hide U16At, U32At, Truncate, KnownFlags, Bit, DecodeUtf16, DecodeUtf8, SoundSoFar;
    if |msg| >= 48 {
      UnicodeFlag(U32At(msg, 20));
      if EndOf(msg, 12) <= |msg| {
        Utf16PanicIff(TargetOf(msg));
        Utf8NeverPanics(TargetOf(msg));
      }
    }
  }

  /** Anything else that is wrong makes it an invalid packet. */
  lemma {:induction false} ChallengeErrors(msg: seq<byte>)
    ensures ParseChallenge(msg).Err? ==> ParseChallenge(msg) == Err(Panic) || ParseChallenge(msg) == Err(InvalidPacket)
    ensures ParseChallenge(msg).Ok? ==>
              && |msg| >= 48
              && msg[..12] == [0x4e, 0x54, 0x4c, 0x4d, 0x53, 0x53, 0x50, 0x00, 2, 0, 0, 0]
              && ParseChallenge(msg).value.challenge == msg[24..32]
  {
    hide Truncate, KnownFlags, Bit, DecodeUtf16, DecodeUtf8;
    if ParseChallenge(msg).Ok? {
      assert msg[..12] == msg[..8] + msg[8..12];
      assert U32At(msg, 8) == 2;
    }
  }

  /** Such a message: the magic alone, without a message type. */
  lemma {:induction false} MagicAlonePanics()
    ensures ParseChallenge(NTLMSSP_MAGIC) == Err(Panic)
  {
    assert NTLMSSP_MAGIC[..8] == NTLMSSP_MAGIC;
  }

  /** Reads a buffer header and moves past it. */
  method ReadBuffer(cursor: Cursor) returns (r: Result<Entry>)
    requires cursor.Valid()
    modifies cursor
    ensures cursor.Valid()
    ensures r == ParseBuffer(cursor.data, old(cursor.at))
    ensures r.Ok? ==> r.value.Buffer? && cursor.at == old(cursor.at) + 8
  {
    var length := cursor.GetU16();
    if length.Err? { return Err(length.error); }
    var capacity := cursor.GetU16();
    if capacity.Err? { return Err(capacity.error); }
    var position := cursor.GetU32();
    if position.Err? { return Err(position.error); }
    return Ok(Buffer(length.value, capacity.value, position.value));
  }

  /** The parser, field by field. */
  method ParseChallengeMsg(msg: seq<byte>) returns (r: Result<Challenge>)
    ensures r == ParseChallenge(msg)
  {
    hide U16At, U32At, Extract, Truncate, KnownFlags, Bit, DecodeTarget;
    var cursor := new Cursor(msg);
    var magic := cursor.Take(8);
    if magic.Err? { return Err(magic.error); }
    assert magic.value == msg[..8];
    if magic.value != NTLMSSP_MAGIC { return Err(InvalidPacket); }
    var msgtype := cursor.GetU32();
    if msgtype.Err? { return Err(msgtype.error); }
    if msgtype.value != NTLM_MSG_CHALLENGE { return Err(InvalidPacket); }
    var targetBuffer := ReadBuffer(cursor);
    if targetBuffer.Err? { return Err(targetBuffer.error); }
    var flags := cursor.GetU32();
    if flags.Err? { return Err(flags.error); }
    var challenge := cursor.Take(8);
    if challenge.Err? { return Err(challenge.error); }
    var context := cursor.Take(8);
    if context.Err? { return Err(context.error); }
    var infoBuffer := ReadBuffer(cursor);
    if infoBuffer.Err? { return Err(infoBuffer.error); }
    var rawTarget := Extract(msg, targetBuffer.value);
    if rawTarget.Err? { return Err(rawTarget.error); }
    var known := Truncate(flags.value, KnownFlags());
    var target := DecodeTarget(rawTarget.value, Bit(known, 0));
    if target.Err? { return Err(target.error); }
    var info := Extract(msg, infoBuffer.value);
    if info.Err? { return Err(info.error); }
    return Ok(Challenge(target.value, known, challenge.value, info.value));
  }

  /** The fields of a type 2 message, with any further items after the info buffer. */
  function ChallengeItems(target: seq<nat>, flags: nat, challenge: seq<byte>, context: seq<byte>, info: seq<byte>,
                          more: seq<Item>): seq<Item>
    requires flags < U32_LIMIT && IsText(target)
  {
    [Field(NTLMSSP_MAGIC), Field(U32(NTLM_MSG_CHALLENGE)), Payload(EncodeText(target, flags % 2 == 1)),
     Field(U32(flags)), Field(challenge), Field(context), Payload(info)] + more
  }

  lemma {:induction false} ChallengePlaces(items: seq<Item>)
    requires |items| >= 7
    requires items[0].Field? && |items[0].bytes| == 8 && items[1].Field? && |items[1].bytes| == 4 && items[2].Payload?
    requires items[3].Field? && |items[3].bytes| == 4 && items[4].Field? && |items[4].bytes| == 8
    requires items[5].Field? && |items[5].bytes| == 8 && items[6].Payload?
    ensures HeaderAt(items, 0) == 0 && HeaderAt(items, 1) == 8 && HeaderAt(items, 2) == 12 && HeaderAt(items, 3) == 20
    ensures HeaderAt(items, 4) == 24 && HeaderAt(items, 5) == 32 && HeaderAt(items, 6) == 40
  {
    assert HeaderAt(items, 1) == 8;
    assert HeaderAt(items, 2) == 12;
    assert HeaderAt(items, 3) == 20;
    assert HeaderAt(items, 4) == 24;
    assert HeaderAt(items, 5) == 32;
  }

  /** The parser is the inverse of the builder: from any type 2 message a packet
      builds, in either encoding, it recovers the target, the flags it knows, the
      challenge and the info. */
  lemma {:induction false} ChallengeRoundTrip(entries: seq<Entry>, extra: seq<byte>, target: seq<nat>, flags: nat,
                                              challenge: seq<byte>, context: seq<byte>, info: seq<byte>,
                                              more: seq<Item>)
    requires flags < U32_LIMIT && IsText(target) && |challenge| == 8 && |context| == 8
    requires Represents(entries, extra, ChallengeItems(target, flags, challenge, context, info, more))
    requires NtlmBytes(entries, extra).Ok?
    ensures ParseChallenge(NtlmBytes(entries, extra).value)
         == Ok(Challenge(target, Truncate(flags, KnownFlags()), challenge, info))
  {
    hide Represents, NtlmBytes, HeaderAt, BaseLen, ParseBuffer, Extract, U32, U32At, Truncate, KnownFlags, Bit,
         EncodeText, DecodeText;
    var items := ChallengeItems(target, flags, challenge, context, info, more);
    var out := NtlmBytes(entries, extra).value;
    ChallengePlaces(items);
    LayoutRoundTrip(entries, extra, items, 0);
    LayoutRoundTrip(entries, extra, items, 1);
    LayoutRoundTrip(entries, extra, items, 2);
    LayoutRoundTrip(entries, extra, items, 3);
    LayoutRoundTrip(entries, extra, items, 4);
    LayoutRoundTrip(entries, extra, items, 6);
    U32RoundTrip(out, 8, NTLM_MSG_CHALLENGE);
    U32RoundTrip(out, 20, flags);
    UnicodeFlag(flags);
    TextRoundTrip(target, flags % 2 == 1);
  }

  // ----- The type 3 message -----

  const NTLM_MSG_RESPONSE: nat := 3

  function ResponseItems(response: seq<byte>, domain: seq<byte>, user: seq<byte>, workstation: seq<byte>): seq<Item> {
    [Field(NTLMSSP_MAGIC), Field(U32(NTLM_MSG_RESPONSE)), Payload(Zeros(24)), Payload(response),
     Payload(domain), Payload(user), Payload(workstation)]
  }

  /** The security buffer at this place of the message points to these bytes. */
  predicate Holds(msg: seq<byte>, at: nat, bytes: seq<byte>) {
    && ParseBuffer(msg, at).Ok?
    && Extract(msg, ParseBuffer(msg, at).value) == Ok(bytes)
  }

  lemma {:induction false} ResponsePlaces(response: seq<byte>, domain: seq<byte>, user: seq<byte>,
                                          workstation: seq<byte>)
    ensures
      var items := ResponseItems(response, domain, user, workstation);
      && HeaderAt(items, 0) == 0 && HeaderAt(items, 1) == 8 && HeaderAt(items, 2) == 12 && HeaderAt(items, 3) == 20
      && HeaderAt(items, 4) == 28 && HeaderAt(items, 5) == 36 && HeaderAt(items, 6) == 44 && HeaderAt(items, 7) == 52
  {
    var items := ResponseItems(response, domain, user, workstation);
    assert HeaderAt(items, 1) == 8;
    assert HeaderAt(items, 2) == 12;
    assert HeaderAt(items, 3) == 20;
    assert HeaderAt(items, 4) == 28;
    assert HeaderAt(items, 5) == 36;
    assert HeaderAt(items, 6) == 44;
  }

  lemma {:induction false} ResponseExtra(response: seq<byte>, domain: seq<byte>, user: seq<byte>,
                                         workstation: seq<byte>)
    ensures
      var items := ResponseItems(response, domain, user, workstation);
      && |Extra(items, 2)| == 0 && |Extra(items, 3)| == 24 && |Extra(items, 4)| == 24 + |response|
      && |Extra(items, 5)| == 24 + |response| + |domain| && |Extra(items, 6)| == 24 + |response| + |domain| + |user|
      && |Extra(items, 7)| == 24 + |response| + |domain| + |user| + |workstation|
  {
    var items := ResponseItems(response, domain, user, workstation);
    assert |Extra(items, 1)| == 0;
    assert |Extra(items, 2)| == 0;
    assert |Extra(items, 3)| == 24;
    assert |Extra(items, 4)| == 24 + |response|;
    assert |Extra(items, 5)| == 24 + |response| + |domain|;
    assert |Extra(items, 6)| == 24 + |response| + |domain| + |user|;
  }

  lemma {:induction false} ResponseFits(response: seq<byte>, domain: seq<byte>, user: seq<byte>, workstation: seq<byte>)
    ensures Fits(ResponseItems(response, domain, user, workstation))
            <==> |response| < U16_LIMIT && |domain| < U16_LIMIT && |user| < U16_LIMIT && |workstation| < U16_LIMIT
  {
    hide HeaderAt, Extra;
    var items := ResponseItems(response, domain, user, workstation);
    ResponsePlaces(response, domain, user, workstation);
    ResponseExtra(response, domain, user, workstation);
    assert items[3].Payload? && items[4].Payload? && items[5].Payload? && items[6].Payload?;
  }

  lemma {:induction false} RepresentsExtra(entries: seq<Entry>, extra: seq<byte>, items: seq<Item>)
    requires Represents(entries, extra, items)
    ensures extra == Extra(items, |items|)
  {
  }

  lemma {:induction false} U32RoundTripLater(n: nat)
    requires n < U32_LIMIT
    ensures forall s: seq<byte> :: |s| >= 12 && s[8..12] == U32(n) ==> U32At(s, 8) == n
  {
    forall s: seq<byte> | |s| >= 12 && s[8..12] == U32(n) ensures U32At(s, 8) == n {
      U32RoundTrip(s, 8, n);
    }
  }

  /** The authentication message: a packet filled by successive appends. Whatever the
      response and the three strings are, the server finds each where its buffer points;
      writing fails exactly when one of them is too long for its 16-bit length. */
  method WriteResponse(response: seq<byte>, domain: seq<nat>, user: seq<nat>, workstation: seq<nat>, unicode: bool)
    returns (r: Result<seq<byte>>)
    requires IsText(domain) && IsText(user) && IsText(workstation)
    ensures
      var d, u, w := EncodeText(domain, unicode), EncodeText(user, unicode), EncodeText(workstation, unicode);
      && (r.Ok? <==> |response| < U16_LIMIT && |d| < U16_LIMIT && |u| < U16_LIMIT && |w| < U16_LIMIT)
      && (r.Ok? ==>
            && |r.value| == 76 + |response| + |d| + |u| + |w|
            && [0x4e, 0x54, 0x4c, 0x4d, 0x53, 0x53, 0x50, 0x00] == r.value[0..8] && U32At(r.value, 8) == 3
            && Holds(r.value, 12, Zeros(24)) && Holds(r.value, 20, response)
            && Holds(r.value, 28, d) && Holds(r.value, 36, u) && Holds(r.value, 44, w))
  {
    hide Represents, NtlmBytes, HeaderAt, BaseLen, Extra, Fits, ParseBuffer, Extract, U32, WriteHeader, EncodeText;
    var packet := new Packet();
    packet.AppendBinary(NTLMSSP_MAGIC);
    packet.AppendU32(NTLM_MSG_RESPONSE);
    packet.AppendBuffer(Zeros(24));
    packet.AppendBuffer(response);
    packet.AppendString(domain, unicode);
    packet.AppendString(user, unicode);
    packet.AppendString(workstation, unicode);
    ghost var d, u, w := EncodeText(domain, unicode), EncodeText(user, unicode), EncodeText(workstation, unicode);
    ghost var items := ResponseItems(response, d, u, w);
    assert packet.items == items;
    ResponseFits(response, d, u, w);
    r := packet.ToBytes();
    if r.Ok? {
      ResponsePlaces(response, d, u, w);
      ResponseExtra(response, d, u, w);
      U32RoundTripLater(NTLM_MSG_RESPONSE);
      RepresentsExtra(packet.entries, packet.extra, items);
      forall i: nat | i < 7 {
        LayoutRoundTrip(packet.entries, packet.extra, items, i);
      }
      assert items[0].Field? && items[1].Field? && items[2].Payload? && items[3].Payload?;
      assert items[4].Payload? && items[5].Payload? && items[6].Payload?;
    }
  }
}
