/** SMB messages as bytes: the envelope, reads, and Transact2 requests and replies.
    A frame starts with the 32-byte header; offsets in a frame count from there. */
module SmbMessages {
  import opened Base
  import opened Cursors
  import opened Collectors
  import opened Texts

  const SMB_HEADER_LEN: nat := 32

  /** The least multiple of four that is no less than n. */
  function RoundUp4(n: nat): (r: nat)
    ensures r % 4 == 0 && n <= r < n + 4
  {
    4 * ((n + 3) / 4)
  }

  function FillUp4(n: nat): (r: nat)
    ensures r == RoundUp4(n) - n
  {
    (4 - n % 4) % 4
  }

  /** Appends the word count, the parameter block, the byte count and the data block. */
  method WriteEnvelope(buffer: seq<byte>, parameter: seq<byte>, data: seq<byte>) returns (r: Result<seq<byte>>)
    ensures r.Ok? <==> |parameter| / 2 < 0x100 && |data| < U16_LIMIT
    ensures r.Ok? ==> r.value == buffer + [|parameter| / 2] + parameter + U16(|data|) + data
    ensures r.Err? ==> r.error == CreatePacket
  {
    if |parameter| / 2 >= 0x100 {
      return Err(CreatePacket);
    }
    var out := buffer + [|parameter| / 2];
    out := out + parameter;
    if |data| >= U16_LIMIT {
      return Err(CreatePacket);
    }
    out := out + U16(|data|);
    out := out + data;
    return Ok(out);
  }

  /** What was written to a buffer stays where it is when more is written. */
  predicate Kept(before: seq<byte>, after: seq<byte>) {
    && |before| <= |after|
    && (forall i :: 0 <= i < |before| ==> after[i] == before[i])
    && (forall i :: 0 <= i && i + 2 <= |before| ==> U16At(after, i) == U16At(before, i))
    && (forall i :: 0 <= i && i + 4 <= |before| ==> U32At(after, i) == U32At(before, i))
  }

  method PutU8(buffer: seq<byte>, n: byte) returns (after: seq<byte>)
    ensures |after| == |buffer| + 1 && Kept(buffer, after) && after[|buffer|] == n
  {
    after := buffer + [n];
  }

  method PutU16(buffer: seq<byte>, n: nat) returns (after: seq<byte>)
    requires n < U16_LIMIT
    ensures |after| == |buffer| + 2 && Kept(buffer, after) && U16At(after, |buffer|) == n
  {
    after := buffer + U16(n);
    U16RoundTrip(after, |buffer|, n);
  }

  method PutU32(buffer: seq<byte>, n: nat) returns (after: seq<byte>)
    requires n < U32_LIMIT
    ensures |after| == |buffer| + 4 && Kept(buffer, after) && U32At(after, |buffer|) == n
  {
    after := buffer + U32(n);
    U32RoundTrip(after, |buffer|, n);
  }

  // ----- The envelope of a reply -----

  /** The two blocks of a reply, and where the data block starts in the frame. */
  datatype Blocks = Blocks(parameter: seq<byte>, data: seq<byte>, dataStart: nat)

  function ReplyBlocks(frame: seq<byte>): (r: Result<Blocks>)
    requires |frame| >= SMB_HEADER_LEN
    ensures r.Ok? ==>
              && r.value.dataStart + |r.value.data| <= |frame|
              && r.value.data == frame[r.value.dataStart..r.value.dataStart + |r.value.data|]
  {
    if |frame| < 33 then Err(Panic)
    else
      var words: nat := frame[32];
      var start := 33 + 2 * words + 2;
      if |frame| < start then Err(Panic)
      else
        var bytes := U16At(frame, start - 2);
        if |frame| < start + bytes then Err(Panic)
        else Ok(Blocks(frame[33..start - 2], frame[start..start + bytes], start))
  }

  lemma {:induction false} SliceU16(s: seq<byte>, from: nat, to: nat, i: nat)
    requires from + i + 2 <= to <= |s|
    ensures U16At(s[from..to], i) == U16At(s, from + i)
  {
  }

  /** Where the data block starts, by the word count. */
  function DataStart(frame: seq<byte>): nat
    requires |frame| > SMB_HEADER_LEN
  {
    35 + 2 * (frame[32] as nat)
  }

  /** Where it ends, by the byte count. */
  function DataEnd(frame: seq<byte>): nat
    requires |frame| > SMB_HEADER_LEN && DataStart(frame) <= |frame|
  {
    DataStart(frame) + U16At(frame, DataStart(frame) - 2)
  }

  /** The frame is as long as its two counts say. */
  predicate HoldsBlocks(frame: seq<byte>) {
    |frame| > SMB_HEADER_LEN && DataStart(frame) <= |frame| && DataEnd(frame) <= |frame|
  }

  /** Exactly when parsing the envelope panics: the frame is shorter than its counts say. */
  lemma {:induction false} EnvelopePanicIff(frame: seq<byte>)
    requires |frame| >= SMB_HEADER_LEN
    ensures ReplyBlocks(frame) == Err(Panic) <==> !HoldsBlocks(frame)
    ensures HoldsBlocks(frame) ==>
              var start, end := DataStart(frame), DataEnd(frame);
              ReplyBlocks(frame) == Ok(Blocks(frame[33..start - 2], frame[start..end], start))
  {
  }

  method ParseEnvelope(frame: seq<byte>) returns (r: Result<Blocks>)
    requires |frame| >= SMB_HEADER_LEN
    ensures r == ReplyBlocks(frame)
  {
    var cursor := new Cursor(frame);
    cursor.at := SMB_HEADER_LEN;
    var words := cursor.GetU8();
    if words.Err? { return Err(words.error); }
    var parameterCount: nat := words.value;
    var parameter := cursor.Take(2 * parameterCount);
    if parameter.Err? { return Err(parameter.error); }
    var bytes := cursor.GetU16();
    if bytes.Err? { return Err(bytes.error); }
    var start := cursor.at;
    var data := cursor.Take(bytes.value);
    if data.Err? { return Err(data.error); }
    return Ok(Blocks(parameter.value, data.value, start));
  }

  // ----- Reads -----

  const SMB_READ_MIN: nat := 32768

  /** The AndX block of a message that chains nothing. */
  const NO_ANDX: seq<byte> := [0xff, 0, 0, 0]

  /** The read request's parameter block: offset and count are each split in two. */
  method ReadBody(fid: nat, offset: nat, count: nat) returns (parameter: seq<byte>)
    requires fid < U16_LIMIT && offset < U64_LIMIT && count < U32_LIMIT
    ensures |parameter| == 24
    ensures U16At(parameter, 4) == fid
    ensures U32At(parameter, 6) + U32_LIMIT * U32At(parameter, 20) == offset
    ensures U16At(parameter, 10) + U16_LIMIT * U16At(parameter, 14) == count
    ensures U16At(parameter, 12) == 32768
    ensures parameter[0] == 0xff && parameter[1] == parameter[2] == parameter[3] == 0
    ensures U16At(parameter, 16) == 0 && U16At(parameter, 18) == 0
  {
    var countLow, countHigh := count % U16_LIMIT, count / U16_LIMIT;
    hide U16, U32, U16At, U32At;
    parameter := NO_ANDX;
    parameter := PutU16(parameter, fid);
    parameter := PutU32(parameter, offset % U32_LIMIT);
    parameter := PutU16(parameter, countLow);
    parameter := PutU16(parameter, SMB_READ_MIN);
    parameter := PutU16(parameter, countHigh);
    parameter := PutU16(parameter, 0);
    parameter := PutU16(parameter, 0);
    parameter := PutU32(parameter, offset / U32_LIMIT);
  }

  /** The commands a chained reply may name. */
  const COMMANDS: set<byte> := {0x04, 0x2e, 0x32, 0x71, 0x72, 0x73, 0x75, 0xa2}

  /** A read reply carries its bytes at the end of the data block, after at most one
      byte of padding. */
  function ReadReply(frame: seq<byte>): Result<seq<byte>>
    requires |frame| >= SMB_HEADER_LEN
  {
    var blocks :- ReplyBlocks(frame);
    if |blocks.parameter| < 4 then Err(Panic)
    else if blocks.parameter[0] != 0xff then
      Err(if blocks.parameter[0] in COMMANDS then Unsupported else InvalidCommand)
    else if |blocks.parameter| < 12 then Err(Panic)
    else
      var length := U16At(blocks.parameter, 10);
      var n := |blocks.data|;
      if n == length || n == length + 1 then Ok(blocks.data[n - length..]) else Err(InvalidData)
  }

  /** Exactly when parsing a read reply panics: the frame is shorter than its counts
      say, or it has fewer than two words, or it chains nothing and has fewer than six. */
  lemma {:induction false} ReadReplyPanicIff(frame: seq<byte>)
    requires |frame| >= SMB_HEADER_LEN
    ensures ReadReply(frame) == Err(Panic) <==>
              !HoldsBlocks(frame) || frame[32] < 2 || (frame[33] == 0xff && frame[32] < 6)
  {
    EnvelopePanicIff(frame);
  }

  /** The block is these bytes, or one more and these. */
  predicate BytesEnd(block: seq<byte>, data: seq<byte>) {
    (|block| == |data| || |block| == |data| + 1) && block[|block| - |data|..] == data
  }

  lemma {:induction false} BytesEndOf(s: seq<byte>, from: nat, to: nat, data: seq<byte>)
    requires from <= to <= |s|
    ensures BytesEnd(s[from..to], data) <==>
              (to - from == |data| || to - from == |data| + 1) && s[to - |data|..to] == data
  {
    if |data| <= to - from {
      assert s[from..to][to - from - |data|..] == s[to - |data|..to];
    }
  }

  lemma {:induction false} NoBlocksNoReply(frame: seq<byte>)
    requires |frame| >= SMB_HEADER_LEN && ReplyBlocks(frame).Err?
    ensures ReadReply(frame).Err?
  {
  }

  lemma {:induction false} ReadReplyOfBlocks(frame: seq<byte>, blocks: Blocks, data: seq<byte>)
    requires |frame| >= SMB_HEADER_LEN && ReplyBlocks(frame) == Ok(blocks)
    ensures ReadReply(frame) == Ok(data) <==>
              && |blocks.parameter| >= 12 && blocks.parameter[0] == 0xff && U16At(blocks.parameter, 10) == |data|
              && BytesEnd(blocks.data, data)
  {
    hide ReplyBlocks, U16At;
  }

  /** A read reply is accepted if and only if the frame holds its blocks, it has six words or
      more and chains nothing, and the bytes are the last of the data block, as many as the
      sixth word says, with one byte at most in front of them. */
  lemma {:induction false} ReadReplyIff(frame: seq<byte>, data: seq<byte>)
    requires |frame| >= SMB_HEADER_LEN
    ensures ReadReply(frame) == Ok(data) <==>
              && HoldsBlocks(frame) && frame[32] >= 6 && frame[33] == 0xff
              && U16At(frame, 43) == |data|
              && BytesEnd(frame[DataStart(frame)..DataEnd(frame)], data)
    ensures HoldsBlocks(frame) ==>
              var start, end := DataStart(frame), DataEnd(frame);
              BytesEnd(frame[start..end], data) <==>
                && (end - start == |data| || end - start == |data| + 1)
                && frame[end - |data|..end] == data
  {
    hide U16At, ReplyBlocks, ReadReply, BytesEnd;
    EnvelopePanicIff(frame);
    if HoldsBlocks(frame) {
      var start, end := DataStart(frame), DataEnd(frame);
      ReadReplyOfBlocks(frame, ReplyBlocks(frame).value, data);
      BytesEndOf(frame, start, end, data);
      if frame[32] >= 6 {
        SliceU16(frame, 33, start - 2, 10);
      }
    } else {
      NoBlocksNoReply(frame);
    }
  }

  /** What a reply that chains another command is refused with. */
  lemma {:induction false} ChainedReplyRefused(frame: seq<byte>)
    requires HoldsBlocks(frame) && frame[32] >= 2 && frame[33] != 0xff
    ensures ReadReply(frame)
            == Err(if frame[33] in {0x04, 0x2e, 0x32, 0x71, 0x72, 0x73, 0x75, 0xa2} then Unsupported
                   else InvalidCommand)
  {
    EnvelopePanicIff(frame);
  }

  /** Such a frame: any header, no words and no bytes. */
  lemma {:induction false} EmptyReadReplyPanics(header: seq<byte>)
    requires |header| == SMB_HEADER_LEN
    ensures ReadReply(header + [0, 0, 0]) == Err(Panic)
  {
    var frame := header + [0, 0, 0];
    assert frame[32] == 0 && frame[33] == 0 && frame[34] == 0;
    assert U16At(frame, 33) == 0;
  }

  method ParseReadReply(frame: seq<byte>) returns (r: Result<seq<byte>>)
    requires |frame| >= SMB_HEADER_LEN
    ensures r == ReadReply(frame)
  {
    var blocks := ParseEnvelope(frame);
    if blocks.Err? { return Err(blocks.error); }
    var cursor := new Cursor(blocks.value.parameter);
    var command := cursor.GetU8();
    if command.Err? { return Err(command.error); }
    var andx := cursor.Take(3);
    if andx.Err? { return Err(andx.error); }
    if command.value != 0xff { return Err(if command.value in COMMANDS then Unsupported else InvalidCommand); }
    var skipped := cursor.Take(6);
    if skipped.Err? { return Err(skipped.error); }
    var length := cursor.GetU16();
    if length.Err? { return Err(length.error); }
    var data := blocks.value.data;
    if |data| > length.value {
      data := data[1..];
    }
    if |data| != length.value { return Err(InvalidData); }
    return Ok(data);
  }

  /** The frame a server sends for a read: any header, twelve words, padding or not. */
  function ReadReplyFrame(header: seq<byte>, reserved: seq<byte>, padding: seq<byte>, data: seq<byte>): seq<byte>
    requires |header| == SMB_HEADER_LEN && |reserved| == 12 && |padding| <= 1 && |padding| + |data| < U16_LIMIT
  {
    header + [12] + (NO_ANDX + Zeros(6) + U16(|data|) + reserved) + U16(|padding| + |data|) + (padding + data)
  }

  lemma {:induction false} ReadReplyRoundTrip(header: seq<byte>, reserved: seq<byte>, padding: seq<byte>,
                                              data: seq<byte>)
    requires |header| == SMB_HEADER_LEN && |reserved| == 12 && |padding| <= 1 && |padding| + |data| < U16_LIMIT
    ensures ReadReply(ReadReplyFrame(header, reserved, padding, data)) == Ok(data)
  {
    var frame := ReadReplyFrame(header, reserved, padding, data);
    var parameter := NO_ANDX + Zeros(6) + U16(|data|) + reserved;
    assert frame[32] == 12;
    assert frame[33..57] == parameter;
    assert frame[57..59] == U16(|padding| + |data|);
    U16RoundTrip(frame, 57, |padding| + |data|);
    assert frame[59..59 + |padding| + |data|] == padding + data;
    assert (padding + data)[|padding|..] == data;
    assert parameter[10..12] == U16(|data|);
    U16RoundTrip(parameter, 10, |data|);
  }

  // ----- Transact2 requests -----

  /** What the fields of a Transact2 request say is what the frame holds. */
  predicate Truthful(frame: seq<byte>, subParameter: seq<byte>, subData: seq<byte>) {
    && |frame| >= 65
    && frame[32] == 15
    && U16At(frame, 33) == |subParameter| && U16At(frame, 35) == |subData|
    && U16At(frame, 51) == |subParameter| && U16At(frame, 55) == |subData|
    && (var at := U16At(frame, 53);
        at % 4 == 0 && 65 <= at && at + |subParameter| <= |frame| && frame[at..at + |subParameter|] == subParameter)
    && (var at := U16At(frame, 57);
        at % 4 == 0 && U16At(frame, 53) + |subParameter| <= at && at + |subData| == |frame| && frame[at..] == subData)
    && 65 + U16At(frame, 63) == |frame|
  }

  datatype Limits = Limits(maxParameter: nat, maxData: nat, maxSetup: byte, setup: nat)

  predicate ValidLimits(l: Limits) { l.maxParameter < U16_LIMIT && l.maxData < U16_LIMIT && l.setup < U16_LIMIT }

  /** Where the sub-command's data goes. */
  function DataOffset(subParameter: seq<byte>): (r: nat)
    ensures r % 4 == 0 && 68 + |subParameter| <= r < 72 + |subParameter|
  {
    RoundUp4(68 + |subParameter|)
  }

  lemma {:induction false} AsciiLength(name: seq<nat>)
    requires forall i :: 0 <= i < |name| ==> name[i] < 0x80
    ensures IsText(name) && |EncodeUtf16(name)| == 2 * |name|
    decreases |name|
  {
    if name != [] {
      AsciiLength(name[1..]);
    }
  }

  /** A search for a name of 32726 letters: twelve bytes, the name and its terminator fit
      16 bits, but the data would start too far out. */
  lemma {:induction false} WideParameterExample(fields: seq<byte>) returns (name: seq<nat>)
    requires |fields| == 12
    ensures IsText(name)
    ensures
      var subParameter := fields + EncodeUtf16(name) + [0, 0];
      |subParameter| < U16_LIMIT && DataOffset(subParameter) >= U16_LIMIT
  {
    name := seq(32726, _ => 0x41);
    AsciiLength(name);
  }

  method TransactParameter(limits: Limits, parameterLen: nat, dataLen: nat, parameterOffset: nat, dataOffset: nat)
    returns (parameter: seq<byte>)
    requires ValidLimits(limits)
    requires parameterLen < U16_LIMIT && dataLen < U16_LIMIT && parameterOffset < U16_LIMIT && dataOffset < U16_LIMIT
    ensures |parameter| == 30
    ensures U16At(parameter, 0) == U16At(parameter, 18) == parameterLen
    ensures U16At(parameter, 2) == U16At(parameter, 22) == dataLen
    ensures U16At(parameter, 20) == parameterOffset && U16At(parameter, 24) == dataOffset
    ensures U16At(parameter, 4) == limits.maxParameter && U16At(parameter, 6) == limits.maxData
    ensures parameter[8] == limits.maxSetup && parameter[9] == 0
    ensures U16At(parameter, 10) == 0 && U32At(parameter, 12) == 0 && U16At(parameter, 16) == 0
    ensures U16At(parameter, 28) == limits.setup && parameter[26] == 1 && parameter[27] == 0
  {
    hide U16, U32, U16At, U32At;
    parameter := PutU16([], parameterLen);
    parameter := PutU16(parameter, dataLen);
    parameter := PutU16(parameter, limits.maxParameter);
    parameter := PutU16(parameter, limits.maxData);
    parameter := PutU8(parameter, limits.maxSetup);
    parameter := PutU8(parameter, 0);
    parameter := PutU16(parameter, 0);
    parameter := PutU32(parameter, 0);
    parameter := PutU16(parameter, 0);
    parameter := PutU16(parameter, parameterLen);
    parameter := PutU16(parameter, parameterOffset);
    parameter := PutU16(parameter, dataLen);
    parameter := PutU16(parameter, dataOffset);
    parameter := PutU8(parameter, 1);
    parameter := PutU8(parameter, 0);
    parameter := PutU16(parameter, limits.setup);
  }

  /** The data block: a name byte, and each part at its four-byte boundary. */
  method TransactData(subParameter: seq<byte>, subData: seq<byte>) returns (data: seq<byte>)
    ensures |data| == DataOffset(subParameter) + |subData| - 65
    ensures data[3..3 + |subParameter|] == subParameter
    ensures data[DataOffset(subParameter) - 65..] == subData
    ensures forall i :: 0 <= i < 3 || 3 + |subParameter| <= i < DataOffset(subParameter) - 65 ==> data[i] == 0
  {
    data := [0];
    data := data + Zeros(FillUp4(65 + |data|));
    data := data + subParameter;
    data := data + Zeros(FillUp4(65 + |data|));
    data := data + subData;
  }

  lemma {:induction false} ShiftedU16(front: seq<byte>, middle: seq<byte>, rest: seq<byte>, i: nat)
    requires i + 2 <= |middle|
    ensures U16At(front + middle + rest, |front| + i) == U16At(middle, i)
  {
  }

  /** What a request frame says besides its two parts: the limits and the sub-command it
      was made for, one setup word, the count of bytes, and zeros everywhere else. */
  ghost predicate Carrying(frame: seq<byte>, limits: Limits, subParameter: seq<byte>) {
    && |frame| >= 65 && DataOffset(subParameter) <= |frame|
    && U16At(frame, 37) == limits.maxParameter && U16At(frame, 39) == limits.maxData
    && frame[41] == limits.maxSetup && frame[59] == 1 && U16At(frame, 61) == limits.setup
    && frame[42] == 0 && U16At(frame, 43) == 0 && U32At(frame, 45) == 0 && U16At(frame, 49) == 0 && frame[60] == 0
    && (forall i :: 65 <= i < 68 || 68 + |subParameter| <= i < DataOffset(subParameter) ==> frame[i] == 0)
  }

  lemma {:induction false} FrameCarries(header: seq<byte>, parameter: seq<byte>, data: seq<byte>, limits: Limits,
                                        subParameter: seq<byte>, subData: seq<byte>)
    requires |header| == 32 && |parameter| == 30 && |data| == DataOffset(subParameter) + |subData| - 65 < U16_LIMIT
    requires U16At(parameter, 4) == limits.maxParameter && U16At(parameter, 6) == limits.maxData
    requires parameter[8] == limits.maxSetup && parameter[26] == 1 && U16At(parameter, 28) == limits.setup
    requires parameter[9] == 0 && parameter[27] == 0
    requires U16At(parameter, 10) == 0 && U32At(parameter, 12) == 0 && U16At(parameter, 16) == 0
    requires forall i :: 0 <= i < 3 || 3 + |subParameter| <= i < DataOffset(subParameter) - 65 ==> data[i] == 0
    ensures Carrying(header + [15] + parameter + U16(|data|) + data, limits, subParameter)
  {
    hide U16;
    var frame := header + [15] + parameter + U16(|data|) + data;
    assert forall i :: 0 <= i < 30 ==> frame[33 + i] == parameter[i];
    assert frame[65..] == data;
    forall i | 65 <= i < 68 || 68 + |subParameter| <= i < DataOffset(subParameter) ensures frame[i] == 0 {
      assert frame[i] == data[i - 65];
    }
  }

  lemma {:induction false} FrameTruthful(header: seq<byte>, parameter: seq<byte>, data: seq<byte>,
                                         subParameter: seq<byte>, subData: seq<byte>)
    requires |header| == 32 && |parameter| == 30 && |data| == DataOffset(subParameter) + |subData| - 65 < U16_LIMIT
    requires U16At(parameter, 0) == U16At(parameter, 18) == |subParameter|
    requires U16At(parameter, 2) == U16At(parameter, 22) == |subData|
    requires U16At(parameter, 20) == 68 && U16At(parameter, 24) == DataOffset(subParameter)
    requires data[3..3 + |subParameter|] == subParameter && data[DataOffset(subParameter) - 65..] == subData
    ensures Truthful(header + [15] + parameter + U16(|data|) + data, subParameter, subData)
  {
    hide U16, U16At;
    var front, rest := header + [15], U16(|data|) + data;
    var frame := front + parameter + rest;
    assert frame == header + [15] + parameter + U16(|data|) + data;
    ShiftedU16(front, parameter, rest, 0);
    ShiftedU16(front, parameter, rest, 2);
    ShiftedU16(front, parameter, rest, 18);
    ShiftedU16(front, parameter, rest, 20);
    ShiftedU16(front, parameter, rest, 22);
    ShiftedU16(front, parameter, rest, 24);
    assert frame[63..65] == U16(|data|);
    U16RoundTrip(frame, 63, |data|);
    assert frame[65..] == data;
    assert frame[68..68 + |subParameter|] == data[3..3 + |subParameter|];
    assert frame[DataOffset(subParameter)..] == data[DataOffset(subParameter) - 65..];
  }

  /** The whole request frame. The offsets are written from a computation that does
      not look at the bytes; they are truthful. It fails exactly when a length or
      the data offset does not fit 16 bits; the last of these is a panic. */
  method WriteTransact2(header: seq<byte>, limits: Limits, subParameter: seq<byte>, subData: seq<byte>)
    returns (r: Result<seq<byte>>)
    requires |header| == SMB_HEADER_LEN && ValidLimits(limits)
    ensures r.Ok? <==>
              && |subData| < U16_LIMIT && DataOffset(subParameter) < U16_LIMIT
              && DataOffset(subParameter) + |subData| - 65 < U16_LIMIT
    ensures r == Err(Panic) <==>
        |subParameter| < U16_LIMIT && |subData| < U16_LIMIT && DataOffset(subParameter) >= U16_LIMIT
    ensures r.Ok? ==> header <= r.value && Truthful(r.value, subParameter, subData)
    ensures r.Ok? ==>
              && U16At(r.value, 37) == limits.maxParameter && U16At(r.value, 39) == limits.maxData
              && r.value[41] == limits.maxSetup && r.value[59] == 1 && U16At(r.value, 61) == limits.setup
              && Carrying(r.value, limits, subParameter)
  {
    if |subParameter| >= U16_LIMIT || |subData| >= U16_LIMIT {
      return Err(CreatePacket);
    }
    var dataStart := SMB_HEADER_LEN + 1 + 30 + 2;
    var parameterOffset := RoundUp4(dataStart + 1);
    var dataOffset := RoundUp4(parameterOffset + |subParameter|);
    if dataOffset >= U16_LIMIT {
      return Err(Panic);
    }
    var parameter := TransactParameter(limits, |subParameter|, |subData|, parameterOffset, dataOffset);
    var data := TransactData(subParameter, subData);
    r := WriteEnvelope(header, parameter, data);
    if r.Ok? {
      FrameTruthful(header, parameter, data, subParameter, subData);
      FrameCarries(header, parameter, data, limits, subParameter, subData);
    }
  }

  // ----- Transact2 replies -----

  /** A part of the reply: the frame's own bytes at the offset the reply names,
      which must lie in the data block. */
  function Part(frame: seq<byte>, blocks: Blocks, offset: nat, count: nat): Result<seq<byte>>
    requires blocks.dataStart + |blocks.data| <= |frame|
  {
    if offset < blocks.dataStart then Err(InvalidData)
    else if offset + count > blocks.dataStart + |blocks.data| then Err(Panic)
    else Ok(frame[offset..offset + count])
  }

  /** The eight fields of a reply's parameter block. */
  datatype Fields = Fields(parameterTotal: nat, dataTotal: nat,
                           parameterCount: nat, parameterOffset: nat, parameterDisplacement: nat,
                           dataCount: nat, dataOffset: nat, dataDisplacement: nat)

  /** A block too short for its fields panics, unless an offset already read lies
      before the data block. */
  function ReplyFields(p: seq<byte>, dataStart: nat): Result<Fields> {
    if |p| >= 10 && U16At(p, 8) < dataStart then Err(InvalidData)
    else if |p| >= 16 && U16At(p, 14) < dataStart then Err(InvalidData)
    else if |p| < 18 then Err(Panic)
    else Ok(Fields(U16At(p, 0), U16At(p, 2), U16At(p, 6), U16At(p, 8), U16At(p, 10),
                   U16At(p, 12), U16At(p, 14), U16At(p, 16)))
  }

  /** A reply message, read straight off the frame. */
  function TransactReply(frame: seq<byte>): Result<Message>
    requires |frame| >= SMB_HEADER_LEN
  {
    var blocks :- ReplyBlocks(frame);
    var f :- ReplyFields(blocks.parameter, blocks.dataStart);
    var parameter :- Part(frame, blocks, f.parameterOffset, f.parameterCount);
    var data :- Part(frame, blocks, f.dataOffset, f.dataCount);
    Ok(Message(Fragment(parameter, f.parameterDisplacement), f.parameterTotal,
               Fragment(data, f.dataDisplacement), f.dataTotal))
  }

  /** A field of the parameter block, at its place in the frame. */
  function Word(frame: seq<byte>, at: nat): nat
    requires at + 2 <= 2 * (if |frame| > SMB_HEADER_LEN then frame[32] as nat else 0) && HoldsBlocks(frame)
  {
    U16At(frame, 33 + at)
  }

  /** An offset that is present lies before the data block. */
  predicate OffsetTooSmall(frame: seq<byte>)
    requires HoldsBlocks(frame)
  {
    || (frame[32] >= 5 && Word(frame, 8) < DataStart(frame))
    || (frame[32] >= 8 && Word(frame, 14) < DataStart(frame))
  }

  /** Exactly when parsing a Transact2 reply panics: the frame is shorter than its
      counts say; or no offset is too small and there are fewer than nine words, or one
      of the two parts reaches past the data block. */
  lemma {:induction false} TransactReplyPanicIff(frame: seq<byte>)
    requires |frame| >= SMB_HEADER_LEN
    ensures TransactReply(frame) == Err(Panic) <==>
              || !HoldsBlocks(frame)
              || (&& !OffsetTooSmall(frame)
                  && (|| frame[32] < 9
                      || Word(frame, 8) + Word(frame, 6) > DataEnd(frame)
                      || Word(frame, 14) + Word(frame, 12) > DataEnd(frame)))
    ensures TransactReply(frame) == Err(InvalidData) <==> HoldsBlocks(frame) && OffsetTooSmall(frame)
  {
    EnvelopePanicIff(frame);
    if HoldsBlocks(frame) {
      var p := frame[33..DataStart(frame) - 2];
      forall at: nat | at + 2 <= |p| ensures U16At(p, at) == Word(frame, at) {
        assert p[at] == frame[33 + at] && p[at + 1] == frame[33 + at + 1];
      }
    }
  }

  /** Such a frame: any header, no words and no bytes. */
  lemma {:induction false} EmptyTransactReplyPanics(header: seq<byte>)
    requires |header| == SMB_HEADER_LEN
    ensures TransactReply(header + [0, 0, 0]) == Err(Panic)
  {
    var frame := header + [0, 0, 0];
    assert frame[32] == 0 && frame[33] == 0 && frame[34] == 0;
    assert U16At(frame, 33) == 0;
    TransactReplyPanicIff(frame);
  }

  /** And a well-formed one whose parameter is said to be one byte longer than the data
      block: nine words, no data. */
  lemma {:induction false} LongPartPanics(header: seq<byte>)
    requires |header| == SMB_HEADER_LEN
    ensures TransactReply(header + [9] + Zeros(6) + [1, 0, 53, 0] + Zeros(4) + [53, 0] + Zeros(4)) == Err(Panic)
  {
    var frame := header + [9] + Zeros(6) + [1, 0, 53, 0] + Zeros(4) + [53, 0] + Zeros(4);
    assert |frame| == 53 && frame[32] == 9;
    assert frame[39] == 1 && frame[40] == 0 && frame[41] == 53 && frame[42] == 0 && frame[45] == 0 && frame[46] == 0;
    assert frame[47] == 53 && frame[48] == 0 && frame[51] == 0 && frame[52] == 0;
    assert U16At(frame, 51) == 0 && U16At(frame, 41) == 53 && U16At(frame, 39) == 1 && U16At(frame, 47) == 53;
    TransactReplyPanicIff(frame);
  }

  method ParseFields(p: seq<byte>, dataStart: nat) returns (r: Result<Fields>)
    ensures r == ReplyFields(p, dataStart)
    ensures r.Ok? ==> r.value.parameterOffset >= dataStart && r.value.dataOffset >= dataStart
  {
    var cursor := new Cursor(p);
    var parameterTotal := cursor.GetU16();
    if parameterTotal.Err? { return Err(parameterTotal.error); }
    var dataTotal := cursor.GetU16();
    if dataTotal.Err? { return Err(dataTotal.error); }
    var reserved := cursor.Take(2);
    if reserved.Err? { return Err(reserved.error); }

    var parameterCount := cursor.GetU16();
    if parameterCount.Err? { return Err(parameterCount.error); }
    var parameterOffset := cursor.GetU16();
    if parameterOffset.Err? { return Err(parameterOffset.error); }
    if parameterOffset.value < dataStart { return Err(InvalidData); }
    var parameterDisplacement := cursor.GetU16();
    if parameterDisplacement.Err? { return Err(parameterDisplacement.error); }

    var dataCount := cursor.GetU16();
    if dataCount.Err? { return Err(dataCount.error); }
    var dataOffset := cursor.GetU16();
    if dataOffset.Err? { return Err(dataOffset.error); }
    if dataOffset.value < dataStart { return Err(InvalidData); }
    var dataDisplacement := cursor.GetU16();
    if dataDisplacement.Err? { return Err(dataDisplacement.error); }

    return Ok(Fields(parameterTotal.value, dataTotal.value,
                     parameterCount.value, parameterOffset.value, parameterDisplacement.value,
                     dataCount.value, dataOffset.value, dataDisplacement.value));
  }

  lemma {:induction false} SliceOfSlice(s: seq<byte>, a: nat, b: nat, from: nat, to: nat)
    requires a <= b <= |s| && from <= to <= b - a
    ensures s[a..b][from..to] == s[a + from..a + to]
  {
    forall k | 0 <= k < to - from ensures s[a..b][from..to][k] == s[a + from..a + to][k] {
      assert s[a..b][from..to][k] == s[a..b][from + k] == s[a + from + k];
    }
  }

  /** The program subtracts the start of the data block from the offset and slices
      the data block: the result is the frame's own bytes at the offset named. */
  method SlicePart(ghost frame: seq<byte>, blocks: Blocks, offset: nat, count: nat) returns (r: Result<seq<byte>>)
    requires blocks.dataStart <= offset && blocks.dataStart + |blocks.data| <= |frame|
    requires blocks.data == frame[blocks.dataStart..blocks.dataStart + |blocks.data|]
    ensures r == Part(frame, blocks, offset, count)
  {
    var from: nat := offset - blocks.dataStart;
    if from + count > |blocks.data| {
      return Err(Panic);
    }
    SliceOfSlice(frame, blocks.dataStart, blocks.dataStart + |blocks.data|, from, from + count);
    return Ok(blocks.data[from..from + count]);
  }

  method ParseTransactReply(frame: seq<byte>) returns (r: Result<Message>)
    requires |frame| >= SMB_HEADER_LEN
    ensures r == TransactReply(frame)
  {
    var blocks := ParseEnvelope(frame);
    if blocks.Err? { return Err(blocks.error); }
    var f := ParseFields(blocks.value.parameter, blocks.value.dataStart);
    if f.Err? { return Err(f.error); }
    var parameter := SlicePart(frame, blocks.value, f.value.parameterOffset, f.value.parameterCount);
    if parameter.Err? { return Err(parameter.error); }
    var data := SlicePart(frame, blocks.value, f.value.dataOffset, f.value.dataCount);
    if data.Err? { return Err(data.error); }
    return Ok(Message(Fragment(parameter.value, f.value.parameterDisplacement), f.value.parameterTotal,
                      Fragment(data.value, f.value.dataDisplacement), f.value.dataTotal));
  }

  /** The parameter block of a reply, field by field, and whatever setup words follow. */
  function ReplyWords(f: Fields, reserved: seq<byte>, setup: seq<byte>): (p: seq<byte>)
    requires f.parameterTotal < U16_LIMIT && f.dataTotal < U16_LIMIT
    requires f.parameterCount < U16_LIMIT && f.parameterOffset < U16_LIMIT && f.parameterDisplacement < U16_LIMIT
    requires f.dataCount < U16_LIMIT && f.dataOffset < U16_LIMIT && f.dataDisplacement < U16_LIMIT
    requires |reserved| == 2
    ensures |p| == 18 + |setup|
  {
    U16(f.parameterTotal) + U16(f.dataTotal) + reserved
    + U16(f.parameterCount) + U16(f.parameterOffset) + U16(f.parameterDisplacement)
    + U16(f.dataCount) + U16(f.dataOffset) + U16(f.dataDisplacement) + setup
  }

  lemma {:induction false} ReplyWordsRead(f: Fields, reserved: seq<byte>, setup: seq<byte>, dataStart: nat)
    requires f.parameterTotal < U16_LIMIT && f.dataTotal < U16_LIMIT
    requires f.parameterCount < U16_LIMIT && f.parameterOffset < U16_LIMIT && f.parameterDisplacement < U16_LIMIT
    requires f.dataCount < U16_LIMIT && f.dataOffset < U16_LIMIT && f.dataDisplacement < U16_LIMIT
    requires |reserved| == 2 && f.parameterOffset >= dataStart && f.dataOffset >= dataStart
    ensures ReplyFields(ReplyWords(f, reserved, setup), dataStart) == Ok(f)
  {
    hide U16, U16At;
    var p := ReplyWords(f, reserved, setup);
    U16RoundTrip(p, 0, f.parameterTotal);
    U16RoundTrip(p, 2, f.dataTotal);
    U16RoundTrip(p, 6, f.parameterCount);
    U16RoundTrip(p, 8, f.parameterOffset);
    U16RoundTrip(p, 10, f.parameterDisplacement);
    U16RoundTrip(p, 12, f.dataCount);
    U16RoundTrip(p, 14, f.dataOffset);
    U16RoundTrip(p, 16, f.dataDisplacement);
  }

  /** The frame of a reply whose parts stand in this data block. */
  function ReplyFrame(header: seq<byte>, words: seq<byte>, bytes: seq<byte>): (frame: seq<byte>)
    requires |header| == SMB_HEADER_LEN && |words| / 2 < 0x100 && |bytes| < U16_LIMIT
    ensures |frame| == 35 + |words| + |bytes|
  {
    header + [|words| / 2] + words + U16(|bytes|) + bytes
  }

  lemma {:induction false} ReplyFrameBlocks(header: seq<byte>, words: seq<byte>, bytes: seq<byte>)
    requires |header| == SMB_HEADER_LEN && |words| % 2 == 0 && |words| / 2 < 0x100 && |bytes| < U16_LIMIT
    ensures ReplyBlocks(ReplyFrame(header, words, bytes)) == Ok(Blocks(words, bytes, 35 + |words|))
  {
    hide U16, U16At;
    var frame := ReplyFrame(header, words, bytes);
    assert frame[32] as nat == |words| / 2;
    assert frame[33..33 + |words|] == words;
    assert frame[33 + |words|..35 + |words|] == U16(|bytes|);
    U16RoundTrip(frame, 33 + |words|, |bytes|);
    assert frame[35 + |words|..35 + |words| + |bytes|] == bytes;
    EnvelopePanicIff(frame);
    assert DataStart(frame) == 35 + |words| && DataEnd(frame) == 35 + |words| + |bytes|;
  }

  /** A reply written field by field, its two parts standing anywhere in the data block,
      parses to those parts at those displacements of those totals. */
  lemma {:induction false} TransactReplyRoundTrip(header: seq<byte>, f: Fields, reserved: seq<byte>, setup: seq<byte>,
                                                  bytes: seq<byte>, parameter: seq<byte>, data: seq<byte>)
    requires f.parameterTotal < U16_LIMIT && f.dataTotal < U16_LIMIT
    requires f.parameterCount < U16_LIMIT && f.parameterOffset < U16_LIMIT && f.parameterDisplacement < U16_LIMIT
    requires f.dataCount < U16_LIMIT && f.dataOffset < U16_LIMIT && f.dataDisplacement < U16_LIMIT
    requires |header| == SMB_HEADER_LEN && |reserved| == 2 && |bytes| < U16_LIMIT
    requires |setup| % 2 == 0 && |setup| <= 492
    requires
      var start := 53 + |setup|;
      && start <= f.parameterOffset && f.parameterOffset - start + f.parameterCount <= |bytes|
      && parameter == bytes[f.parameterOffset - start..][..f.parameterCount]
      && start <= f.dataOffset && f.dataOffset - start + f.dataCount <= |bytes|
      && data == bytes[f.dataOffset - start..][..f.dataCount]
    ensures
      TransactReply(ReplyFrame(header, ReplyWords(f, reserved, setup), bytes))
      == Ok(Message(Fragment(parameter, f.parameterDisplacement), f.parameterTotal,
                    Fragment(data, f.dataDisplacement), f.dataTotal))
  {
    hide ReplyBlocks, ReplyFields, ReplyWords, U16;
    var words := ReplyWords(f, reserved, setup);
    var frame := ReplyFrame(header, words, bytes);
    var start := 53 + |setup|;
    ReplyWordsRead(f, reserved, setup, start);
    ReplyFrameBlocks(header, words, bytes);
    assert frame[start..] == bytes;
    assert frame[f.parameterOffset..f.parameterOffset + f.parameterCount] == parameter;
    assert frame[f.dataOffset..f.dataOffset + f.dataCount] == data;
  }

  lemma {:induction false} LaterFragmentWords(f: Fields)
    requires f == Fields(2, 101, 0, 53, 0, 1, 53, 100)
    ensures ReplyWords(f, [0, 0], []) == [2, 0, 101, 0, 0, 0, 0, 0, 53, 0, 0, 0, 1, 0, 53, 0, 100, 0]
  {
    assert U16(2) == [2, 0] && U16(101) == [101, 0] && U16(0) == [0, 0] && U16(53) == [53, 0];
    assert U16(1) == [1, 0] && U16(100) == [100, 0];
  }

  /** The second fragment of a listing, byte by byte: its one byte of data belongs at 100 of 101. */
  lemma {:induction false} LaterFragmentExample(header: seq<byte>)
    requires |header| == SMB_HEADER_LEN
    ensures
      var words := [2, 0, 101, 0, 0, 0, 0, 0, 53, 0, 0, 0, 1, 0, 53, 0, 100, 0];
      TransactReply(header + [9] + words + [1, 0] + [7]) == Ok(Message(Fragment([], 0), 2, Fragment([7], 100), 101))
  {
    hide TransactReply;
    var f, none: seq<byte> := Fields(2, 101, 0, 53, 0, 1, 53, 100), [];
    TransactReplyRoundTrip(header, f, [0, 0], none, [7], none, [7]);
    LaterFragmentWords(f);
    assert U16(1) == [1, 0];
  }

  // ----- A whole transaction -----

  predicate Framed(frames: seq<seq<byte>>) {
    forall i :: 0 <= i < |frames| ==> |frames[i]| >= SMB_HEADER_LEN
  }

  /** The transaction as a function of the frames that arrive for it: each is parsed
      and added, until both halves are ready; then both are assembled. */
  function Received(frames: seq<seq<byte>>, p: Collected, d: Collected): Result<(seq<byte>, seq<byte>)>
    requires Framed(frames)
    decreases |frames|
  {
    if frames == [] then Err(Timeout)
    else
      var m :- TransactReply(frames[0]);
      var (p', pok) := AddFragment(p, m.parameter.data, m.parameter.offset, m.parameterTotal);
      var (d', dok) := AddFragment(d, m.data.data, m.data.offset, m.dataTotal);
      if !pok || !dok then Err(Reassemble)
      else if !(Ready(p') && Ready(d')) then Received(frames[1..], p', d')
      else
        var parameter :- Assemble(p'.fragments, p'.total);
        var data :- Assemble(d'.fragments, d'.total);
        Ok((parameter, data))
  }

  predicate Parses(frames: seq<seq<byte>>)
    requires Framed(frames)
  {
    forall i :: 0 <= i < |frames| ==> TransactReply(frames[i]).Ok?
  }

  function Parsed(frames: seq<seq<byte>>): (ms: seq<Message>)
    requires Framed(frames) && Parses(frames)
    ensures |ms| == |frames|
  {
    seq(|frames|, i requires 0 <= i < |frames| => TransactReply(frames[i]).value)
  }

  /** The first n frames are replies that carry both halves, in pieces of any size
      and in any order. */
  ghost predicate FirstCarry(frames: seq<seq<byte>>, n: nat, parameter: seq<byte>, data: seq<byte>)
    requires Framed(frames)
  {
    0 < n <= |frames| && Parses(frames[..n]) && Carries(Parsed(frames[..n]), parameter, data)
  }

  /** With the first i frames added, the rest of the n frames complete the transaction. */
  lemma {:induction false} CarriedIsReceived(frames: seq<seq<byte>>, n: nat, i: nat, parameter: seq<byte>,
                                             data: seq<byte>)
    requires Framed(frames) && FirstCarry(frames, n, parameter, data) && i < n
    ensures
      var ms := Parsed(frames[..n]);
      Received(frames[i..], AddAll(NOTHING, Parameters(ms)[..i], |parameter|).0,
               AddAll(NOTHING, Datas(ms)[..i], |data|).0)
      == Ok((parameter, data))
    decreases n - i
  {
    hide TransactReply, Ready, Assemble, AddFragment;
    var ms := Parsed(frames[..n]);
    HalfCollected(Parameters(ms), parameter, i);
    HalfCollected(Datas(ms), data, i);
    assert frames[i] == frames[..n][i] && frames[i..][1..] == frames[i + 1..];
    assert TransactReply(frames[i]) == Ok(ms[i]);
    if i + 1 < n {
      CarriedIsReceived(frames, n, i + 1, parameter, data);
    }
  }

  /** What a transaction yields was carried by a prefix of its frames. */
  lemma {:induction false} ReceivedWasCarried(frames: seq<seq<byte>>, i: nat, p: Collected, d: Collected)
    returns (n: nat)
    requires Framed(frames) && i <= |frames| && Parses(frames[..i]) && Gathering(Parsed(frames[..i]), p, d)
    requires Received(frames[i..], p, d).Ok?
    ensures FirstCarry(frames, n, Received(frames[i..], p, d).value.0, Received(frames[i..], p, d).value.1)
    decreases |frames| - i
  {
    hide TransactReply, Ready, Assemble, AddFragment, Gathering, Carries;
    assert frames[i..][1..] == frames[i + 1..];
    var m := TransactReply(frames[i]).value;
    assert frames[..i + 1] == frames[..i] + [frames[i]];
    assert Parsed(frames[..i + 1]) == Parsed(frames[..i]) + [m];
    GatheringMore(Parsed(frames[..i]), p, d, m);
    var (p', _) := AddFragment(p, m.parameter.data, m.parameter.offset, m.parameterTotal);
    var (d', _) := AddFragment(d, m.data.data, m.data.offset, m.dataTotal);
    if Ready(p') && Ready(d') {
      n := i + 1;
      AssembledIsCarried(Parsed(frames[..n]), p', d',
                         Assemble(p'.fragments, p'.total).value, Assemble(d'.fragments, d'.total).value);
    } else {
      n := ReceivedWasCarried(frames, i + 1, p', d');
    }
  }

  /** From frames to both halves, exactly: a transaction yields these two halves if
      and only if some first frames of those that arrive are well-formed replies
      whose fragments tile the halves, without gap or overlap. */
  lemma {:induction false} TransactIff(frames: seq<seq<byte>>, parameter: seq<byte>, data: seq<byte>)
    requires Framed(frames)
    ensures Received(frames, NOTHING, NOTHING) == Ok((parameter, data)) <==>
        exists n :: FirstCarry(frames, n, parameter, data)
  {
    hide Received;
    assert frames[0..] == frames && frames[..0] == [];
    if Received(frames, NOTHING, NOTHING) == Ok((parameter, data)) {
      var n := ReceivedWasCarried(frames, 0, NOTHING, NOTHING);
    }
    if n: nat :| FirstCarry(frames, n, parameter, data) {
      CarriedIsReceived(frames, n, 0, parameter, data);
      var ms := Parsed(frames[..n]);
      assert Parameters(ms)[..0] == [] && Datas(ms)[..0] == [];
    }
  }

  /** The receive loop of a transaction. */
  method Transact(frames: seq<seq<byte>>) returns (r: Result<(seq<byte>, seq<byte>)>)
    requires Framed(frames)
    ensures r == Received(frames, NOTHING, NOTHING)
  {
    hide TransactReply, Ready, Assemble, AddFragment;
    var ctx := new CollectTrans2();
    assert frames[0..] == frames;
    for i := 0 to |frames|
      invariant fresh(ctx) && fresh(ctx.parameter) && fresh(ctx.data) && ctx.parameter != ctx.data
      invariant Received(frames[i..], ctx.parameter.Abs(), ctx.data.Abs()) == Received(frames, NOTHING, NOTHING)
    {
      assert frames[i..][1..] == frames[i + 1..];
      var reply := ParseTransactReply(frames[i]);
      if reply.Err? {
        return Err(reply.error);
      }
      var done := ctx.Add(reply.value);
      if done.Err? {
        return Err(done.error);
      }
      if done.value {
        r := ctx.GetParts();
        return;
      }
    }
    return Err(Timeout);
  }
}
