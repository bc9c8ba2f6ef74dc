/** Session framing over a byte stream that delivers its bytes in any pieces. */
module NetBiosFraming {
  import opened Base

  const MAX_FRAME_LENGTH: nat := 0x1ffff

  datatype Frame =
    | Message(data: seq<byte>)
    | SessionRequest(request: seq<byte>)
    | PositiveResponse
    | NegativeResponse(code: byte)
    | Retarget
    | Keepalive

  /** The frame a type byte and a payload make; each type has its own length rule. */
  function NewFrame(frameType: byte, data: seq<byte>): Result<Frame> {
    if frameType == 0x00 then Ok(Message(data))
    else if frameType == 0x81 then Ok(SessionRequest(data))
    else if frameType == 0x82 then if data == [] then Ok(PositiveResponse) else Err(InvalidFrame)
    else if frameType == 0x83 then if |data| == 1 then Ok(NegativeResponse(data[0])) else Err(InvalidFrame)
    else if frameType == 0x84 then if |data| == 6 then Ok(Retarget) else Err(InvalidFrame)
    else if frameType == 0x85 then if data == [] then Ok(Keepalive) else Err(InvalidFrame)
    else Err(InvalidFrameType)
  }

  /** A length in three bytes, most significant first. */
  function Length3(n: nat): (s: seq<byte>)
    requires n < 0x100_0000
    ensures |s| == 3
  {
    [n / U16_LIMIT, n / 0x100 % 0x100, n % 0x100]
  }

  function ReadLength3(s: seq<byte>): nat
    requires |s| == 3
  {
    U16_LIMIT * (s[0] as int) + 0x100 * (s[1] as int) + (s[2] as int)
  }

  lemma {:induction false} LengthRoundTrip(n: nat)
    requires n < 0x100_0000
    ensures ReadLength3(Length3(n)) == n
  {
  }

  function Encode(f: Frame): Result<seq<byte>> {
    match f
    case Message(data) =>
      if |data| > MAX_FRAME_LENGTH then Err(InvalidFrame) else Ok([0x00] + Length3(|data|) + data)
    case SessionRequest(request) =>
      if |request| != 68 then Err(InvalidFrame) else Ok([0x81] + Length3(|request|) + request)
    case _ => Err(InvalidFrame)
  }

  /** One frame off the front of the stream. A stream that ends within the first four
      bytes is an I/O error, one that ends later an unexpected end. */
  function TakeFrame(s: seq<byte>): (r: Result<(Frame, seq<byte>)>)
    ensures r.Ok? ==> |r.value.1| < |s|
  {
    if |s| < 4 then Err(Io)
    else
      var length := ReadLength3(s[1..4]);
      if length > MAX_FRAME_LENGTH then Err(FrameTooBig)
      else if |s| < 4 + length then Err(UnexpectedEof)
      else
        var frame :- NewFrame(s[0], s[4..4 + length]);
        Ok((frame, s[4 + length..]))
  }

  /** The next message, keepalives skipped. */
  function TakeMessage(s: seq<byte>): (r: Result<(seq<byte>, seq<byte>)>)
    ensures r.Ok? ==> |r.value.1| < |s|
    decreases |s|
  {
    var (frame, rest) :- TakeFrame(s);
    match frame
    case Message(data) => Ok((data, rest))
    case Keepalive => TakeMessage(rest)
    case _ => Err(UnexpectedFrame)
  }

  function TakeMessages(s: seq<byte>, n: nat): Result<seq<seq<byte>>>
    decreases n
  {
    if n == 0 then Ok([])
    else
      var (first, rest) :- TakeMessage(s);
      var others :- TakeMessages(rest, n - 1);
      Ok([first] + others)
  }

  /** What a peer puts on the wire: messages, with keepalives anywhere between them. */
  datatype Item = Send(data: seq<byte>) | Idle

  function OnTheWire(items: seq<Item>): seq<byte>
    requires forall i :: 0 <= i < |items| && items[i].Send? ==> |items[i].data| <= MAX_FRAME_LENGTH
  {
    if items == [] then []
    else
      (match items[0]
       case Send(data) => Encode(Message(data)).value
       case Idle => [0x85, 0, 0, 0])
      + OnTheWire(items[1..])
  }

  function Messages(items: seq<Item>): seq<seq<byte>> {
    if items == [] then []
    else if items[0].Send? then [items[0].data] + Messages(items[1..])
    else Messages(items[1..])
  }

  lemma {:induction false} MessageFirst(data: seq<byte>, rest: seq<byte>)
    requires |data| <= MAX_FRAME_LENGTH
    ensures TakeFrame(Encode(Message(data)).value + rest) == Ok((Message(data), rest))
  {
    var s := Encode(Message(data)).value + rest;
    LengthRoundTrip(|data|);
    assert s[1..4] == Length3(|data|);
    assert s[4..4 + |data|] == data && s[4 + |data|..] == rest;
  }

  lemma {:induction false} RequestEncodes(request: seq<byte>)
    requires |request| == 68
    ensures Encode(SessionRequest(request)) == Ok([0x81, 0, 0, 68] + request)
  {
    assert Length3(68) == [0, 0, 68];
    assert [0x81] + [0, 0, 68] + request == [0x81, 0, 0, 68] + request;
  }

  /** Any frame off the wire, its length in three bytes, most significant first: which
      types there are, what each may carry, and that nothing longer than 0x1ffff is read. */
  lemma {:induction false} AnyFrame(frameType: byte, data: seq<byte>, rest: seq<byte>)
    requires |data| < 0x100_0000
    ensures
      var n := |data|;
      var taken := TakeFrame([frameType, n / 0x1_0000, n / 0x100 % 0x100, n % 0x100] + data + rest);
      && (taken == Err(FrameTooBig) <==> n > 0x1ffff)
      && (taken == Err(InvalidFrameType) <==>
            n <= 0x1ffff && frameType !in {0x00, 0x81, 0x82, 0x83, 0x84, 0x85})
      && (n <= 0x1ffff && frameType in {0x00, 0x81, 0x82, 0x83, 0x84, 0x85} ==>
            taken == match frameType
                     case 0x00 => Ok((Message(data), rest))
                     case 0x81 => Ok((SessionRequest(data), rest))
                     case 0x82 => if n == 0 then Ok((PositiveResponse, rest)) else Err(InvalidFrame)
                     case 0x83 => if n == 1 then Ok((NegativeResponse(data[0]), rest)) else Err(InvalidFrame)
                     case 0x84 => if n == 6 then Ok((Retarget, rest)) else Err(InvalidFrame)
                     case _ => if n == 0 then Ok((Keepalive, rest)) else Err(InvalidFrame))
  {
    var n := |data|;
    var s := [frameType, n / 0x1_0000, n / 0x100 % 0x100, n % 0x100] + data + rest;
    LengthRoundTrip(n);
    assert s[1..4] == Length3(n);
    if n <= 0x1ffff {
      assert s[4..4 + n] == data && s[4 + n..] == rest;
    }
  }

  /** A frame of which the end is missing: an I/O error within the first four bytes, an
      unexpected end after them. */
  lemma {:induction false} CutFrame(frameType: byte, data: seq<byte>, k: nat)
    requires |data| <= 0x1ffff && k < 4 + |data|
    ensures
      var n := |data|;
      TakeFrame(([frameType, n / 0x1_0000, n / 0x100 % 0x100, n % 0x100] + data)[..k])
      == Err(if k < 4 then Io else UnexpectedEof)
  {
    var n := |data|;
    var s := ([frameType, n / 0x1_0000, n / 0x100 % 0x100, n % 0x100] + data)[..k];
    LengthRoundTrip(n);
    if k >= 4 {
      assert s[1..4] == Length3(n);
    }
  }

  /** The next message ends with the first frame that is not a keepalive: its bytes if it is a
      message, an error if it is anything else or cannot be read. */
  lemma {:induction false} MessageOrError(s: seq<byte>)
    ensures TakeFrame(s).Err? ==> TakeMessage(s) == Err(TakeFrame(s).error)
    ensures TakeFrame(s).Ok? ==>
              var (frame, rest) := TakeFrame(s).value;
              && (frame.Message? ==> TakeMessage(s) == Ok((frame.data, rest)))
              && (frame.Keepalive? ==> TakeMessage(s) == TakeMessage(rest))
              && (!frame.Message? && !frame.Keepalive? ==> TakeMessage(s) == Err(UnexpectedFrame))
  {
    hide TakeFrame;
  }

  /** A message or a session request that can be sent, as bytes; nothing else can be. */
  lemma {:induction false} Encoded(f: Frame)
    ensures Encode(f).Ok? <==>
        (f.Message? && |f.data| <= 0x1ffff) || (f.SessionRequest? && |f.request| == 68)
    ensures Encode(f).Err? ==> Encode(f) == Err(InvalidFrame)
    ensures f.Message? && |f.data| <= 0x1ffff ==>
              var n := |f.data|;
              Encode(f) == Ok([0x00, n / 0x1_0000, n / 0x100 % 0x100, n % 0x100] + f.data)
    ensures f.SessionRequest? && |f.request| == 68 ==> Encode(f) == Ok([0x81, 0, 0, 68] + f.request)
  {
    if f.Message? && |f.data| <= 0x1ffff {
      var n := |f.data|;
      assert [0x00, n / 0x1_0000, n / 0x100 % 0x100, n % 0x100] == [0x00] + Length3(n);
    } else if f.SessionRequest? && |f.request| == 68 {
      RequestEncodes(f.request);
    }
  }

  lemma {:induction false} KeepaliveFirst(rest: seq<byte>)
    ensures TakeFrame([0x85, 0, 0, 0] + rest) == Ok((Keepalive, rest))
  {
    var s := [0x85, 0, 0, 0] + rest;
    assert s[1..4] == [0, 0, 0];
    assert s[4..4] == [] && s[4..] == rest;
  }

  /** Framing round trip: every list of messages comes back as it was sent. */
  lemma {:induction false} FramingRoundTrip(items: seq<Item>)
    requires forall i :: 0 <= i < |items| && items[i].Send? ==> |items[i].data| <= MAX_FRAME_LENGTH
    ensures TakeMessages(OnTheWire(items), |Messages(items)|) == Ok(Messages(items))
    decreases |items|
  {
    hide TakeFrame, NewFrame, Length3;
    if items != [] {
      FramingRoundTrip(items[1..]);
      var rest := OnTheWire(items[1..]);
      match items[0]
      case Send(data) =>
        MessageFirst(data, rest);
      case Idle =>
        KeepaliveFirst(rest);
        assert TakeMessage(OnTheWire(items)) == TakeMessage(rest);
    }
  }

  // ----- Session names -----

  function AsciiOnly(name: string): string {
    if name == "" then "" else (if (name[0] as int) < 128 then [name[0]] else []) + AsciiOnly(name[1..])
  }

  lemma {:induction false} AsciiOnlyIsAscii(name: string)
    ensures forall i :: 0 <= i < |AsciiOnly(name)| ==> (AsciiOnly(name)[i] as int) < 128
  {
    if name != "" {
      AsciiOnlyIsAscii(name[1..]);
    }
  }

  /** The sixteen characters that are encoded: the ASCII ones, padded with blanks. */
  function Padded(name: string): (s: seq<byte>)
    ensures |s| == 16
    ensures forall i :: 0 <= i < 16 ==> s[i] < 128
  {
    AsciiOnlyIsAscii(name);
    var ascii := AsciiOnly(name);
    seq(16, i requires 0 <= i < 16 => if i < |ascii| then ascii[i] as int else 32)
  }

  /** Two letters for every character, from A on. */
  function HalfAscii(s: seq<byte>): (letters: seq<byte>)
    requires forall i :: 0 <= i < |s| ==> s[i] < 128
    ensures |letters| == 2 * |s|
  {
    if s == [] then [] else [65 + s[0] / 16, 65 + s[0] % 16] + HalfAscii(s[1..])
  }

  function EncodeNetbiosName(name: string): (letters: seq<byte>)
    ensures |letters| == 32
  {
    HalfAscii(Padded(name))
  }

  /** What the peer reads: letter pairs back to characters. */
  function FromHalfAscii(letters: seq<byte>): seq<int>
    decreases |letters|
  {
    if |letters| < 2 then []
    else [(letters[0] - 65) * 16 + (letters[1] - 65)] + FromHalfAscii(letters[2..])
  }

  lemma {:induction false} NameRoundTrip(s: seq<byte>)
    requires forall i :: 0 <= i < |s| ==> s[i] < 128
    ensures FromHalfAscii(HalfAscii(s)) == s
    decreases |s|
  {
    if s != [] {
      NameRoundTrip(s[1..]);
      assert HalfAscii(s)[2..] == HalfAscii(s[1..]);
      assert s == [s[0]] + s[1..];
    }
  }

  function SessionRequestBytes(dst: string, src: string): (s: seq<byte>)
    ensures |s| == 68
  {
    [0x20] + EncodeNetbiosName(dst) + [0x00] + ([0x20] + EncodeNetbiosName(src) + [0x00])
  }

  lemma {:induction false} RequestPlaces(dst: string, src: string)
    ensures SessionRequestBytes(dst, src)[1..33] == EncodeNetbiosName(dst)
    ensures SessionRequestBytes(dst, src)[35..67] == EncodeNetbiosName(src)
  {
    hide EncodeNetbiosName;
  }

  /** A session request always encodes, and names both ends: the peer reads back
      the two padded names. */
  lemma {:induction false} SessionRequestNames(dst: string, src: string)
    ensures
      var request := SessionRequestBytes(dst, src);
      && Encode(SessionRequest(request)) == Ok([0x81, 0, 0, 68] + request)
      && FromHalfAscii(request[1..33]) == Padded(dst)
      && FromHalfAscii(request[35..67]) == Padded(src)
  {
    hide Encode, SessionRequestBytes, HalfAscii, FromHalfAscii, Padded;
    RequestEncodes(SessionRequestBytes(dst, src));
    RequestPlaces(dst, src);
    NameRoundTrip(Padded(dst));
    NameRoundTrip(Padded(src));
  }

  function SessionAnswer(answer: Result<(Frame, seq<byte>)>): Result<()> {
    match answer
    case Err(e) => Err(e)
    case Ok((PositiveResponse, _)) => Ok(())
    case Ok((NegativeResponse(code), _)) => Err(CreateSession(code))
    case _ => Err(InvalidFrame)
  }

  /** How the peer's answer decides, by its bytes: four of them accept, and five refuse
      with a code; nothing else does either. */
  lemma {:induction false} AnswerRead(answer: seq<byte>)
    ensures SessionAnswer(TakeFrame(answer)) == Ok(()) <==> [0x82, 0, 0, 0] <= answer
    ensures forall code: nat ::
              SessionAnswer(TakeFrame(answer)) == Err(CreateSession(code)) <==>
              code < 0x100 && [0x83, 0, 0, 1, code] <= answer
  {
    if |answer| >= 4 {
      assert ReadLength3(answer[1..4])
          == 0x1_0000 * (answer[1] as int) + 0x100 * (answer[2] as int) + (answer[3] as int);
    }
  }

  lemma {:induction false} HalfAsciiAt(s: seq<byte>, i: nat)
    requires (forall k :: 0 <= k < |s| ==> s[k] < 128) && i < |s|
    ensures HalfAscii(s)[2 * i] == 'A' as int + s[i] / 16 && HalfAscii(s)[2 * i + 1] == 'A' as int + s[i] % 16
    decreases i
  {
    if i > 0 {
      HalfAsciiAt(s[1..], i - 1);
    }
  }

  lemma {:induction false} AsciiStays(name: string)
    requires forall i :: 0 <= i < |name| ==> (name[i] as int) < 128
    ensures AsciiOnly(name) == name
  {
    if name != "" {
      AsciiStays(name[1..]);
    }
  }

  lemma {:induction false} OtherDropped(front: string, other: char, rest: string)
    requires other as int >= 128
    ensures AsciiOnly(front + [other] + rest) == AsciiOnly(front + rest)
    decreases |front|
  {
    if front == "" {
      assert front + [other] + rest == [other] + rest && ([other] + rest)[1..] == rest && front + rest == rest;
    } else {
      OtherDropped(front[1..], other, rest);
      assert (front + [other] + rest)[1..] == front[1..] + [other] + rest && (front + rest)[1..] == front[1..] + rest;
    }
  }

  /** The letters a name is sent as: two for each of its first sixteen ASCII characters,
      blanks where it has fewer, and characters outside ASCII left out. */
  lemma {:induction false} NameLetters(name: string, i: nat)
    requires (forall k :: 0 <= k < |name| ==> (name[k] as int) < 128) && i < 16
    ensures
      var c := if i < |name| then name[i] as int else ' ' as int;
      EncodeNetbiosName(name)[2 * i] == 'A' as int + c / 16 && EncodeNetbiosName(name)[2 * i + 1] == 'A' as int + c % 16
    ensures forall front, other, rest ::
              name == front + rest && other as int >= 128 ==>
                EncodeNetbiosName(front + [other] + rest) == EncodeNetbiosName(name)
  {
    hide HalfAscii;
    AsciiStays(name);
    HalfAsciiAt(Padded(name), i);
    forall front, other, rest | name == front + rest && other as int >= 128
      ensures EncodeNetbiosName(front + [other] + rest) == EncodeNetbiosName(name)
    {
      OtherDropped(front, other, rest);
    }
  }

  // ----- The connection -----

  /** Of this data a front part was added to what was sent. */
  ghost predicate FrontSent(before: seq<byte>, data: seq<byte>, after: seq<byte>) {
    exists n :: 0 <= n <= |data| && after == before + data[..n]
  }

  class Socket {
    /** The pieces still to arrive; each read takes from the first only. */
    var segments: seq<seq<byte>>
    var sent: seq<byte>

    ghost function Incoming(): seq<byte>
      reads this
    {
      Flatten(segments)
    }

    ghost predicate Valid()
      reads this
    {
      forall i :: 0 <= i < |segments| ==> segments[i] != []
    }

    constructor (segments: seq<seq<byte>>)
      requires forall i :: 0 <= i < |segments| ==> segments[i] != []
      ensures Valid() && Incoming() == Flatten(segments) && sent == []
    {
      this.segments, sent := segments, [];
    }

    /** At most `limit` bytes of the next piece; nothing only at the end of the stream. */
    method ReadBuf(limit: nat) returns (chunk: seq<byte>)
      requires Valid() && limit > 0
      modifies this`segments
      ensures Valid() && |chunk| <= limit && chunk + Incoming() == old(Incoming())
      ensures chunk == [] <==> old(Incoming()) == []
    {
      if segments == [] {
        return [];
      }
      var first := segments[0];
      if |first| <= limit {
        segments := segments[1..];
        return first;
      }
      segments := [first[limit..]] + segments[1..];
      assert segments[1..] == old(segments)[1..];
      assert first[..limit] + (first[limit..] + Flatten(old(segments)[1..])) == first + Flatten(old(segments)[1..]);
      return first[..limit];
    }

    /** The socket takes one byte or more, or fails and takes none. */
    method WriteBuf(data: seq<byte>) returns (r: Result<nat>)
      requires data != []
      modifies this`sent
      ensures r.Ok? ==> 1 <= r.value <= |data| && sent == old(sent) + data[..r.value]
      ensures r.Err? ==> r.error == Io && sent == old(sent)
    {
      var failed: bool := *;
      if failed {
        return Err(Io);
      }
      var n: nat := *;
      if !(1 <= n <= |data|) {
        n := |data|;
      }
      sent := sent + data[..n];
      return Ok(n);
    }
  }

  class NetBios {
    const socket: Socket

    constructor (socket: Socket)
      ensures this.socket == socket
    {
      this.socket := socket;
    }

    method ReadExactly(count: nat) returns (r: Result<seq<byte>>)
      requires socket.Valid()
      modifies socket`segments
      ensures socket.Valid()
      ensures if |old(socket.Incoming())| >= count
              then r == Ok(old(socket.Incoming())[..count]) && socket.Incoming() == old(socket.Incoming())[count..]
              else r == Err(UnexpectedEof)
    {
      var buffer: seq<byte> := [];
      ghost var all := socket.Incoming();
      var left: nat := count;
      while left > 0
        invariant socket.Valid() && |buffer| + left == count
        invariant buffer + socket.Incoming() == all
        decreases left
      {
        var chunk := socket.ReadBuf(left);
        if chunk == [] {
          return Err(UnexpectedEof);
        }
        assert buffer + (chunk + socket.Incoming()) == (buffer + chunk) + socket.Incoming();
        buffer := buffer + chunk;
        left := left - |chunk|;
      }
      assert buffer == all[..count] && socket.Incoming() == all[count..];
      return Ok(buffer);
    }

    /** Reads one frame, however the bytes are cut up on the way. */
    method Recv() returns (r: Result<Frame>)
      requires socket.Valid()
      modifies socket`segments
      ensures socket.Valid()
      ensures match TakeFrame(old(socket.Incoming()))
              case Ok((frame, rest)) => r == Ok(frame) && socket.Incoming() == rest
              case Err(e) => r == Err(e)
    {
      ghost var all := socket.Incoming();
      var frameType := ReadExactly(1);
      if frameType.Err? {
        return Err(Io);
      }
      var rawLength := ReadExactly(3);
      if rawLength.Err? {
        return Err(Io);
      }
      assert rawLength.value == all[1..4];
      var length := ReadLength3(rawLength.value);
      if length > MAX_FRAME_LENGTH {
        return Err(FrameTooBig);
      }
      assert socket.Incoming() == all[4..];
      var data := ReadExactly(length);
      if data.Err? {
        return Err(data.error);
      }
      assert data.value == all[4..4 + length] && socket.Incoming() == all[4 + length..];
      return NewFrame(frameType.value[0], data.value);
    }

    method RecvMessage() returns (r: Result<seq<byte>>)
      requires socket.Valid()
      modifies socket`segments
      ensures socket.Valid()
      ensures match TakeMessage(old(socket.Incoming()))
              case Ok((data, rest)) => r == Ok(data) && socket.Incoming() == rest
              case Err(e) => r == Err(e)
    {
      while true
        invariant socket.Valid() && TakeMessage(socket.Incoming()) == TakeMessage(old(socket.Incoming()))
        decreases |socket.Incoming()|
      {
        var frame := Recv();
        if frame.Err? {
          return Err(frame.error);
        }
        match frame.value
        case Message(data) => return Ok(data);
        case Keepalive =>
        case _ => return Err(UnexpectedFrame);
      }
    }

    /** Receiving n messages in any segmentation is taking n messages off the flat stream. */
    method RecvMessages(n: nat) returns (r: Result<seq<seq<byte>>>)
      requires socket.Valid()
      modifies socket`segments
      ensures socket.Valid() && r == TakeMessages(old(socket.Incoming()), n)
    {
      if n == 0 {
        return Ok([]);
      }
      var first := RecvMessage();
      if first.Err? {
        return Err(first.error);
      }
      var others := RecvMessages(n - 1);
      if others.Err? {
        return others;
      }
      return Ok([first.value] + others.value);
    }

    /** Everything is sent, in order; or the socket failed, and a front part was sent. */
    method WriteExactly(data: seq<byte>) returns (r: Result<()>)
      modifies socket`sent
      ensures r.Ok? ==> socket.sent == old(socket.sent) + data
      ensures r.Err? ==> r.error == Io && FrontSent(old(socket.sent), data, socket.sent)
    {
      var left := data;
      while left != []
        invariant |left| <= |data| && left == data[|data| - |left|..]
        invariant socket.sent == old(socket.sent) + data[..|data| - |left|]
        decreases |left|
      {
        ghost var done := |data| - |left|;
        var n := socket.WriteBuf(left);
        if n.Err? {
          return Err(n.error);
        }
        assert data[..done] + left[..n.value] == data[..done + n.value];
        left := left[n.value..];
      }
      assert data[..|data|] == data;
      return Ok(());
    }

    method SendFrame(frame: Frame) returns (r: Result<()>)
      modifies socket`sent
      ensures match Encode(frame)
              case Ok(data) =>
                && (r.Ok? ==> socket.sent == old(socket.sent) + data)
                && (r.Err? ==> r.error == Io && FrontSent(old(socket.sent), data, socket.sent))
              case Err(e) => r == Err(e) && socket.sent == old(socket.sent)
    {
      var data := Encode(frame);
      if data.Err? {
        return Err(data.error);
      }
      r := WriteExactly(data.value);
    }

    /** Asks for a session: unless the socket fails the request is a whole one, and the
        answer decides; a refusal is an error that carries the peer's code. */
    method CreateSession(dst: string, src: string) returns (r: Result<()>)
      requires socket.Valid()
      modifies socket
      ensures socket.Valid()
      ensures r == Err(Io) || socket.sent == old(socket.sent) + ([0x81, 0, 0, 68] + SessionRequestBytes(dst, src))
      ensures r == Err(Io) || r == SessionAnswer(TakeFrame(old(socket.Incoming())))
      ensures
        var answer := old(socket.Incoming());
        && (r == Ok(()) <==> r != Err(Io) && [0x82, 0, 0, 0] <= answer)
        && (forall code: nat ::
              r == Err(Error.CreateSession(code)) <==>
              r != Err(Io) && code < 0x100 && [0x83, 0, 0, 1, code] <= answer)
    {
      AnswerRead(socket.Incoming());
      SessionRequestNames(dst, src);
      var sent := SendFrame(SessionRequest(SessionRequestBytes(dst, src)));
      if sent.Err? {
        return Err(sent.error);
      }
      var answer := Recv();
      if answer.Err? {
        return Err(answer.error);
      }
      match answer.value
      case PositiveResponse => return Ok(());
      case NegativeResponse(code) => return Err(Error.CreateSession(code));
      case _ => return Err(InvalidFrame);
    }
  }

  /** End to end: messages of any number, encoded with keepalives anywhere among
      them and delivered in any pieces, are received as they were sent. */
  method Delivered(items: seq<Item>, segments: seq<seq<byte>>) returns (r: Result<seq<seq<byte>>>)
    requires forall i :: 0 <= i < |items| && items[i].Send? ==> |items[i].data| <= MAX_FRAME_LENGTH
    requires forall i :: 0 <= i < |segments| ==> segments[i] != []
    requires Flatten(segments) == OnTheWire(items)
    ensures r == Ok(Messages(items))
  {
    FramingRoundTrip(items);
    var socket := new Socket(segments);
    var netbios := new NetBios(socket);
    r := netbios.RecvMessages(|Messages(items)|);
  }
}
