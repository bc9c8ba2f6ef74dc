/** Bytes, results and the little-endian fields every message is made of. */
module Base {

  type byte = x: int | 0 <= x < 0x100

  const U16_LIMIT: nat := 0x1_0000
  const U32_LIMIT: nat := 0x1_0000_0000
  const U64_LIMIT: nat := 0x1_0000_0000_0000_0000

  datatype Option<+T> = None | Some(value: T)

  /** The error returns of the program. `Panic` stands for the places where the
      program would stop instead of returning: a slice out of range, a cursor
      read past its end, a failed `expect`. */
  datatype Error =
    | InvalidData
    | InvalidFrame
    | InvalidFrameType
    | FrameTooBig
    | UnexpectedFrame
    | UnexpectedEof
    | CreatePacket
    | Reassemble
    | InvalidPacket
    | InvalidCommand
    | Unsupported
    | UnexpectedReply
    | ServerError
    | Internal
    | InvalidConfig
    | CreateSession(code: nat)
    | Io
    | Duplicate
    | Timeout
    | Panic

  datatype Result<+T> = Ok(value: T) | Err(error: Error) {
    predicate IsFailure() { Err? }
    function PropagateFailure<U>(): Result<U>
      requires Err?
    {
      Err(error)
    }
    function Extract(): T
      requires Ok?
    {
      value
    }
  }

  function Prepend<T>(front: seq<T>, r: Result<seq<T>>): Result<seq<T>> {
    match r
    case Ok(rest) => Ok(front + rest)
    case Err(e) => Err(e)
  }

  lemma {:induction false} PrependTwice<T>(a: seq<T>, b: seq<T>, r: Result<seq<T>>)
    ensures Prepend(a, Prepend(b, r)) == Prepend(a + b, r)
    ensures Prepend([], r) == r
  {
    if r.Ok? {
      assert a + (b + r.value) == (a + b) + r.value;
      assert [] + r.value == r.value;
    }
  }

  function Min(a: int, b: int): int { if a < b then a else b }

  function Max(a: int, b: int): int { if a < b then b else a }

  /** Saturating subtraction. */
  function Monus(a: int, b: int): nat { if a < b then 0 else a - b }

  function U16(n: nat): (s: seq<byte>)
    requires n < U16_LIMIT
    ensures |s| == 2
  {
    [n % 0x100, n / 0x100]
  }

  function U32(n: nat): (s: seq<byte>)
    requires n < U32_LIMIT
    ensures |s| == 4
  {
    U16(n % U16_LIMIT) + U16(n / U16_LIMIT)
  }

  function U64(n: nat): (s: seq<byte>)
    requires n < U64_LIMIT
    ensures |s| == 8
  {
    U32(n % U32_LIMIT) + U32(n / U32_LIMIT)
  }

  /** Reads at a cursor; the program's cursors panic when too few bytes remain. */
  function U16At(s: seq<byte>, i: nat): nat
    requires i + 2 <= |s|
  {
    s[i] as int + 0x100 * (s[i + 1] as int)
  }

  function U32At(s: seq<byte>, i: nat): nat
    requires i + 4 <= |s|
  {
    U16At(s, i) + U16_LIMIT * U16At(s, i + 2)
  }

  function U64At(s: seq<byte>, i: nat): nat
    requires i + 8 <= |s|
  {
    U32At(s, i) + U32_LIMIT * U32At(s, i + 4)
  }

  /** The least significant byte comes first, at every width. */
  lemma {:induction false} LeastFirst(s: seq<byte>, i: nat)
    ensures i + 2 <= |s| ==> U16At(s, i) == s[i] as int + 0x100 * (s[i + 1] as int)
    ensures i + 4 <= |s| ==>
              U32At(s, i) == s[i] as int + 0x100 * (s[i + 1] as int) + 0x1_0000 * (s[i + 2] as int)
                             + 0x100_0000 * (s[i + 3] as int)
    ensures i + 8 <= |s| ==>
              U64At(s, i) == s[i] as int + 0x100 * (s[i + 1] as int) + 0x1_0000 * (s[i + 2] as int)
                             + 0x100_0000 * (s[i + 3] as int) + 0x1_0000_0000 * (s[i + 4] as int)
                             + 0x100_0000_0000 * (s[i + 5] as int) + 0x1_0000_0000_0000 * (s[i + 6] as int)
                             + 0x100_0000_0000_0000 * (s[i + 7] as int)
  {
  }

  lemma {:induction false} U16RoundTrip(s: seq<byte>, i: nat, n: nat)
    requires n < U16_LIMIT && i + 2 <= |s| && s[i..i + 2] == U16(n)
    ensures U16At(s, i) == n
  {
    assert s[i] == s[i..i + 2][0] && s[i + 1] == s[i..i + 2][1];
  }

  lemma {:induction false} U32RoundTrip(s: seq<byte>, i: nat, n: nat)
    requires n < U32_LIMIT && i + 4 <= |s| && s[i..i + 4] == U32(n)
    ensures U32At(s, i) == n
  {
    assert s[i..i + 2] == s[i..i + 4][..2] == U16(n % U16_LIMIT);
    assert s[i + 2..i + 4] == s[i..i + 4][2..] == U16(n / U16_LIMIT);
    U16RoundTrip(s, i, n % U16_LIMIT);
    U16RoundTrip(s, i + 2, n / U16_LIMIT);
  }

  lemma {:induction false} U64RoundTrip(s: seq<byte>, i: nat, n: nat)
    requires n < U64_LIMIT && i + 8 <= |s| && s[i..i + 8] == U64(n)
    ensures U64At(s, i) == n
  {
    assert s[i..i + 4] == s[i..i + 8][..4] == U32(n % U32_LIMIT);
    assert s[i + 4..i + 8] == s[i..i + 8][4..] == U32(n / U32_LIMIT);
    U32RoundTrip(s, i, n % U32_LIMIT);
    U32RoundTrip(s, i + 4, n / U32_LIMIT);
  }

  function Zeros(n: nat): (s: seq<byte>)
    ensures |s| == n
  {
    seq(n, i => 0)
  }

  /** Concatenation of a list of byte strings. */
  function Flatten(parts: seq<seq<byte>>): seq<byte>
  {
    if parts == [] then [] else parts[0] + Flatten(parts[1..])
  }

  lemma {:induction false} FlattenAppend(a: seq<seq<byte>>, b: seq<seq<byte>>)
    ensures Flatten(a + b) == Flatten(a) + Flatten(b)
  {
    if a == [] {
      assert a + b == b;
    } else {
      assert (a + b)[1..] == a[1..] + b;
      FlattenAppend(a[1..], b);
    }
  }

  lemma {:induction false} FlattenPush(a: seq<seq<byte>>, x: seq<byte>)
    ensures Flatten(a + [x]) == Flatten(a) + x
  {
    FlattenAppend(a, [x]);
    assert Flatten([x]) == x;
  }
}
