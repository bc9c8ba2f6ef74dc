/** Text and flags as they stand in messages: UTF-16, UTF-8 and bit sets. A text is
    the sequence of its Unicode scalar values. */
module Texts {
  import opened Base

  predicate Scalar(c: nat) { c < 0xd800 || 0xe000 <= c < 0x11_0000 }

  predicate IsText(s: seq<nat>) { forall i :: 0 <= i < |s| ==> Scalar(s[i]) }

  predicate High(u: nat) { 0xd800 <= u < 0xdc00 }

  predicate Low(u: nat) { 0xdc00 <= u < 0xe000 }

  // ----- UTF-16, little-endian -----

  function EncodeUtf16One(c: nat): (raw: seq<byte>)
    requires Scalar(c)
    ensures |raw| == 2 || |raw| == 4
  {
    if c < 0x1_0000 then U16(c)
    else U16(0xd800 + (c - 0x1_0000) / 0x400) + U16(0xdc00 + (c - 0x1_0000) % 0x400)
  }

  function EncodeUtf16(s: seq<nat>): (raw: seq<byte>)
    requires IsText(s)
    ensures |raw| % 2 == 0
  {
    if s == [] then [] else EncodeUtf16One(s[0]) + EncodeUtf16(s[1..])
  }

  /** Units are read one by one, and decoding stops at the first unpaired surrogate.
      A last single byte panics, if decoding gets that far. */
  function DecodeUtf16(raw: seq<byte>): Result<seq<nat>>
    decreases |raw|
  {
    if raw == [] then Ok([])
    else if |raw| == 1 then Err(Panic)
    else
      var u := U16At(raw, 0);
      if Low(u) then Err(InvalidData)
      else if !High(u) then Prepend([u], DecodeUtf16(raw[2..]))
      else if |raw| == 2 then Err(InvalidData)
      else if |raw| == 3 then Err(Panic)
      else
        var v := U16At(raw, 2);
        if !Low(v) then Err(InvalidData)
        else Prepend([0x1_0000 + 0x400 * (u - 0xd800) + (v - 0xdc00)], DecodeUtf16(raw[4..]))
  }

  lemma {:induction false} DecodeUtf16One(c: nat, rest: seq<byte>)
    requires Scalar(c)
    ensures DecodeUtf16(EncodeUtf16One(c) + rest) == Prepend([c], DecodeUtf16(rest))
  {
    var raw := EncodeUtf16One(c) + rest;
    assert raw[|EncodeUtf16One(c)|..] == rest;
    if c < 0x1_0000 {
      U16RoundTrip(raw, 0, c);
    } else {
      assert raw[0..2] == U16(0xd800 + (c - 0x1_0000) / 0x400);
      assert raw[2..4] == U16(0xdc00 + (c - 0x1_0000) % 0x400);
      U16RoundTrip(raw, 0, 0xd800 + (c - 0x1_0000) / 0x400);
      U16RoundTrip(raw, 2, 0xdc00 + (c - 0x1_0000) % 0x400);
    }
  }

  lemma {:induction false} Utf16RoundTrip(s: seq<nat>)
    requires IsText(s)
    ensures DecodeUtf16(EncodeUtf16(s)) == Ok(s)
    decreases |s|
  {
    if s != [] {
      Utf16RoundTrip(s[1..]);
      DecodeUtf16One(s[0], EncodeUtf16(s[1..]));
      assert s == [s[0]] + s[1..];
    }
  }

  lemma {:induction false} U16OfU16At(raw: seq<byte>, i: nat)
    requires i + 2 <= |raw|
    ensures U16At(raw, i) < U16_LIMIT && U16(U16At(raw, i)) == raw[i..i + 2]
  {
  }

  lemma {:induction false} EncodeUnit(u: nat)
    requires u < U16_LIMIT && !High(u) && !Low(u)
    ensures Scalar(u) && EncodeUtf16One(u) == U16(u)
  {
  }

  lemma {:induction false} EncodePair(u: nat, v: nat)
    requires High(u) && Low(v)
    ensures
      var c := 0x1_0000 + 0x400 * (u - 0xd800) + (v - 0xdc00);
      Scalar(c) && EncodeUtf16One(c) == U16(u) + U16(v)
  {
    var c := 0x1_0000 + 0x400 * (u - 0xd800) + (v - 0xdc00);
    assert (c - 0x1_0000) / 0x400 == u - 0xd800 && (c - 0x1_0000) % 0x400 == v - 0xdc00;
  }

  lemma {:induction false} DecodedUtf16(raw: seq<byte>)
    requires DecodeUtf16(raw).Ok?
    ensures IsText(DecodeUtf16(raw).value) && EncodeUtf16(DecodeUtf16(raw).value) == raw
    decreases |raw|
  {
    hide EncodeUtf16One, U16, U16At;
    if raw != [] {
      var u := U16At(raw, 0);
      U16OfU16At(raw, 0);
      if !High(u) {
        EncodeUnit(u);
        DecodedUtf16(raw[2..]);
        assert raw == raw[0..2] + raw[2..];
        assert DecodeUtf16(raw).value[1..] == DecodeUtf16(raw[2..]).value;
      } else {
        var v := U16At(raw, 2);
        U16OfU16At(raw, 2);
        DecodedUtf16(raw[4..]);
        EncodePair(u, v);
        assert raw == raw[0..2] + raw[2..4] + raw[4..];
        assert DecodeUtf16(raw).value[1..] == DecodeUtf16(raw[4..]).value;
      }
    }
  }

  /** Decoding accepts exactly what encoding writes, and gives the text back. */
  lemma {:induction false} Utf16Iff(raw: seq<byte>, s: seq<nat>)
    ensures DecodeUtf16(raw) == Ok(s) <==> IsText(s) && EncodeUtf16(s) == raw
  {
    if DecodeUtf16(raw) == Ok(s) {
      DecodedUtf16(raw);
    }
    if IsText(s) && EncodeUtf16(s) == raw {
      Utf16RoundTrip(s);
    }
  }

  /** The text before a last single byte is sound, or lacks only the second half of
      its last pair. */
  predicate SoundSoFar(raw: seq<byte>) {
    var n := |raw|;
    || DecodeUtf16(raw).Ok?
    || (n >= 2 && High(U16At(raw, n - 2)) && DecodeUtf16(raw[..n - 2]).Ok?)
  }

  lemma {:induction false} HighOrLow(u: nat)
    ensures !(High(u) && Low(u))
  {
  }

  /** A sound first character of two or four bytes. */
  predicate StartsWith(raw: seq<byte>, k: nat) {
    || (k == 2 && |raw| >= 2 && !High(U16At(raw, 0)) && !Low(U16At(raw, 0)))
    || (k == 4 && |raw| >= 4 && High(U16At(raw, 0)) && Low(U16At(raw, 2)))
  }

  lemma {:induction false} StartSize(raw: seq<byte>, k: nat)
    requires StartsWith(raw, k)
    ensures (k == 2 || k == 4) && k <= |raw|
  {
  }

  lemma {:induction false} StartsWithFront(raw: seq<byte>, k: nat, n: nat)
    requires StartsWith(raw, k) && k <= n <= |raw|
    ensures StartsWith(raw[..n], k)
  {
    hide High, Low;
  }

  lemma {:induction false} DecodeFrom(raw: seq<byte>, k: nat)
    requires StartsWith(raw, k)
    ensures k <= |raw| && DecodeUtf16(raw).Ok? == DecodeUtf16(raw[k..]).Ok?
    ensures (DecodeUtf16(raw) == Err(Panic)) == (DecodeUtf16(raw[k..]) == Err(Panic))
  {
    HighOrLow(U16At(raw, 0));
    hide High, Low;
  }

  lemma {:induction false} LastUnit(raw: seq<byte>, k: nat)
    requires k + 2 <= |raw|
    ensures U16At(raw[k..], |raw| - k - 2) == U16At(raw, |raw| - 2)
    ensures raw[..|raw| - 2][k..] == raw[k..][..|raw| - k - 2]
  {
  }

  lemma {:induction false} NothingIsText()
    ensures DecodeUtf16([]) == Ok([])
  {
  }

  /** Skipping the first character of a text does not change whether it is sound so far. */
  lemma {:induction false} SoundFrom(raw: seq<byte>, k: nat)
    requires StartsWith(raw, k) && |raw| % 2 == 0
    ensures k <= |raw| && SoundSoFar(raw) == SoundSoFar(raw[k..])
  {
    hide High, Low, StartsWith, DecodeUtf16, U16At;
    DecodeFrom(raw, k);
    StartSize(raw, k);
    var n := |raw|;
    if n > k {
      LastUnit(raw, k);
      StartsWithFront(raw, k, n - 2);
      DecodeFrom(raw[..n - 2], k);
    } else {
      assert raw[k..] == [];
      NothingIsText();
    }
  }

  /** An unpaired surrogate at the front stops decoding, whatever follows. */
  lemma {:induction false} StopsAtFront(raw: seq<byte>)
    requires |raw| >= 2
    requires Low(U16At(raw, 0)) || (High(U16At(raw, 0)) && |raw| >= 4 && !Low(U16At(raw, 2)))
    ensures DecodeUtf16(raw) == Err(InvalidData)
    ensures |raw| % 2 == 1 ==> !SoundSoFar(raw[..|raw| - 1])
  {
    hide Low, High;
    HighOrLow(U16At(raw, 0));
    if |raw| % 2 == 1 {
      var front := raw[..|raw| - 1];
      HighOrLow(U16At(front, 0));
    }
  }

  lemma {:induction false} AtMostThree(raw: seq<byte>)
    requires |raw| < 2 || (High(U16At(raw, 0)) && |raw| < 4)
    ensures DecodeUtf16(raw) == Err(Panic) <==> |raw| % 2 == 1 && SoundSoFar(raw[..|raw| - 1])
  {
    if |raw| == 3 {
      var front := raw[..2];
      assert front[..0] == [] && U16At(front, 0) == U16At(raw, 0);
    }
  }

  /** Decoding panics exactly when there is a last single byte and all before it is sound. */
  lemma {:induction false} Utf16PanicIff(raw: seq<byte>)
    ensures DecodeUtf16(raw) == Err(Panic) <==> |raw| % 2 == 1 && SoundSoFar(raw[..|raw| - 1])
    decreases |raw|
  {
    hide SoundSoFar, High, Low;
    var n := |raw|;
    if n < 2 || (High(U16At(raw, 0)) && n < 4) {
      AtMostThree(raw);
    } else if Low(U16At(raw, 0)) || (High(U16At(raw, 0)) && !Low(U16At(raw, 2))) {
      StopsAtFront(raw);
    } else {
      var k := if High(U16At(raw, 0)) then 4 else 2;
      HighOrLow(U16At(raw, 0));
      Utf16PanicIff(raw[k..]);
      DecodeFrom(raw, k);
      if n % 2 == 1 {
        StartsWithFront(raw, k, n - 1);
        SoundFrom(raw[..n - 1], k);
        assert raw[..n - 1][k..] == raw[k..][..n - 1 - k];
      }
    }
  }

  // ----- UTF-8 (section 3 of RFC 3629) -----

  function EncodeUtf8One(c: nat): (raw: seq<byte>)
    requires Scalar(c)
    ensures 1 <= |raw| <= 4
  {
    if c < 0x80 then [c]
    else if c < 0x800 then [0xc0 + c / 0x40, 0x80 + c % 0x40]
    else if c < 0x1_0000 then [0xe0 + c / 0x40 / 0x40, 0x80 + c / 0x40 % 0x40, 0x80 + c % 0x40]
    else [0xf0 + c / 0x40 / 0x40 / 0x40, 0x80 + c / 0x40 / 0x40 % 0x40, 0x80 + c / 0x40 % 0x40, 0x80 + c % 0x40]
  }

  function EncodeUtf8(s: seq<nat>): seq<byte>
    requires IsText(s)
  {
    if s == [] then [] else EncodeUtf8One(s[0]) + EncodeUtf8(s[1..])
  }

  predicate Tail(raw: seq<byte>, from: nat, to: nat) {
    to <= |raw| && forall i :: from <= i < to ==> 0x80 <= raw[i] < 0xc0
  }

  /** How long the first character claims to be; 0 for a byte that starts none. */
  function Claimed(b: byte): nat {
    if b < 0x80 then 1
    else if 0xc0 <= b < 0xe0 then 2
    else if 0xe0 <= b < 0xf0 then 3
    else if 0xf0 <= b < 0xf8 then 4
    else 0
  }

  function Minus(b: byte, lead: nat): nat
    requires lead <= b as nat
  {
    b as nat - lead
  }

  function ValueOf(raw: seq<byte>): nat
    requires raw != [] && Claimed(raw[0]) > 0 && Tail(raw, 1, Claimed(raw[0]))
  {
    var n := Claimed(raw[0]);
    if n == 1 then raw[0] as nat
    else if n == 2 then 0x40 * Minus(raw[0], 0xc0) + Minus(raw[1], 0x80)
    else if n == 3 then 0x40 * (0x40 * Minus(raw[0], 0xe0) + Minus(raw[1], 0x80)) + Minus(raw[2], 0x80)
    else 0x40 * (0x40 * (0x40 * Minus(raw[0], 0xf0) + Minus(raw[1], 0x80)) + Minus(raw[2], 0x80)) + Minus(raw[3], 0x80)
  }

  /** A character is a scalar value in its shortest form. */
  function DecodeUtf8(raw: seq<byte>): Result<seq<nat>>
    decreases |raw|
  {
    if raw == [] then Ok([])
    else
      var n := Claimed(raw[0]);
      if n == 0 || !Tail(raw, 1, n) then Err(InvalidData)
      else
        var c := ValueOf(raw);
        if !Scalar(c) || |EncodeUtf8One(c)| != n then Err(InvalidData)
        else Prepend([c], DecodeUtf8(raw[n..]))
  }

  lemma {:induction false} DecodeUtf8One(c: nat, rest: seq<byte>)
    requires Scalar(c)
    ensures DecodeUtf8(EncodeUtf8One(c) + rest) == Prepend([c], DecodeUtf8(rest))
  {
    var one := EncodeUtf8One(c);
    var raw := one + rest;
    assert raw[|one|..] == rest;
    assert forall i :: 0 <= i < |one| ==> raw[i] == one[i];
    assert Claimed(raw[0]) == |one|;
    assert ValueOf(raw) == c;
  }

  lemma {:induction false} LastDigit(high: nat, low: nat)
    requires low < 0x40
    ensures (0x40 * high + low) / 0x40 == high && (0x40 * high + low) % 0x40 == low
  {
  }

  lemma {:induction false} EncodeOfValue(raw: seq<byte>)
    requires raw != [] && Claimed(raw[0]) > 0 && Tail(raw, 1, Claimed(raw[0]))
    requires Scalar(ValueOf(raw)) && |EncodeUtf8One(ValueOf(raw))| == Claimed(raw[0])
    ensures EncodeUtf8One(ValueOf(raw)) == raw[..Claimed(raw[0])]
  {
    var n := Claimed(raw[0]);
    if n == 2 {
      LastDigit(Minus(raw[0], 0xc0), Minus(raw[1], 0x80));
    } else if n == 3 {
      LastDigit(Minus(raw[0], 0xe0), Minus(raw[1], 0x80));
      LastDigit(0x40 * Minus(raw[0], 0xe0) + Minus(raw[1], 0x80), Minus(raw[2], 0x80));
    } else if n == 4 {
      LastDigit(Minus(raw[0], 0xf0), Minus(raw[1], 0x80));
      LastDigit(0x40 * Minus(raw[0], 0xf0) + Minus(raw[1], 0x80), Minus(raw[2], 0x80));
      LastDigit(0x40 * (0x40 * Minus(raw[0], 0xf0) + Minus(raw[1], 0x80)) + Minus(raw[2], 0x80), Minus(raw[3], 0x80));
    }
  }

  lemma {:induction false} NothingDecodes()
    ensures DecodeUtf8([]) == Ok([])
  {
  }

  lemma {:induction false} Utf8RoundTrip(s: seq<nat>)
    requires IsText(s)
    ensures DecodeUtf8(EncodeUtf8(s)) == Ok(s)
    decreases |s|
  {
    hide EncodeUtf8One, DecodeUtf8;
    if s == [] {
      NothingDecodes();
    } else {
      Utf8RoundTrip(s[1..]);
      DecodeUtf8One(s[0], EncodeUtf8(s[1..]));
      assert s == [s[0]] + s[1..];
    }
  }

  lemma {:induction false} DecodedUtf8(raw: seq<byte>)
    requires DecodeUtf8(raw).Ok?
    ensures IsText(DecodeUtf8(raw).value) && EncodeUtf8(DecodeUtf8(raw).value) == raw
    decreases |raw|
  {
    hide EncodeUtf8One, ValueOf, Claimed;
    if raw != [] {
      var n := Claimed(raw[0]);
      EncodeOfValue(raw);
      DecodedUtf8(raw[n..]);
      assert DecodeUtf8(raw).value[1..] == DecodeUtf8(raw[n..]).value;
      assert raw == raw[..n] + raw[n..];
    }
  }

  /** Decoding accepts exactly what encoding writes, and gives the text back. */
  lemma {:induction false} Utf8Iff(raw: seq<byte>, s: seq<nat>)
    ensures DecodeUtf8(raw) == Ok(s) <==> IsText(s) && EncodeUtf8(s) == raw
  {
    if DecodeUtf8(raw) == Ok(s) {
      DecodedUtf8(raw);
    }
    if IsText(s) && EncodeUtf8(s) == raw {
      Utf8RoundTrip(s);
    }
  }

  lemma {:induction false} Utf8NeverPanics(raw: seq<byte>)
    ensures DecodeUtf8(raw) != Err(Panic)
    decreases |raw|
  {
    hide EncodeUtf8One, ValueOf;
    if raw != [] && Claimed(raw[0]) > 0 && Tail(raw, 1, Claimed(raw[0])) {
      Utf8NeverPanics(raw[Claimed(raw[0])..]);
    }
  }

  // ----- Text in either encoding -----

  function EncodeText(s: seq<nat>, unicode: bool): seq<byte>
    requires IsText(s)
  {
    if unicode then EncodeUtf16(s) else EncodeUtf8(s)
  }

  function DecodeText(raw: seq<byte>, unicode: bool): Result<seq<nat>> {
    if unicode then DecodeUtf16(raw) else DecodeUtf8(raw)
  }

  lemma {:induction false} TextRoundTrip(s: seq<nat>, unicode: bool)
    requires IsText(s)
    ensures DecodeText(EncodeText(s, unicode), unicode) == Ok(s)
  {
    if unicode {
      Utf16Iff(EncodeUtf16(s), s);
    } else {
      Utf8Iff(EncodeUtf8(s), s);
    }
  }

  /** The euro sign and a grinning face, in both encodings. */
  lemma {:induction false} TextExamples()
    ensures EncodeUtf8([0x20ac]) == [0xe2, 0x82, 0xac] && EncodeUtf16([0x20ac]) == [0xac, 0x20]
    ensures EncodeUtf8([0x1f600]) == [0xf0, 0x9f, 0x98, 0x80] && EncodeUtf16([0x1f600]) == [0x3d, 0xd8, 0x00, 0xde]
  {
    var euro, face := [0x20ac], [0x1f600];
    assert euro[1..] == [] && face[1..] == [];
    assert EncodeUtf8One(0x20ac) == [0xe2, 0x82, 0xac] && EncodeUtf8One(0x1f600) == [0xf0, 0x9f, 0x98, 0x80];
    assert EncodeUtf16One(0x20ac) == [0xac, 0x20] && EncodeUtf16One(0x1f600) == [0x3d, 0xd8] + [0x00, 0xde];
    assert EncodeUtf8([]) == [] && EncodeUtf16([]) == [];
  }

  // ----- Flags -----

  predicate Bit(n: nat, k: nat) {
    if k == 0 then n % 2 == 1 else Bit(n / 2, k - 1)
  }

  /** The flags a program knows, from the least significant bit on; others are dropped. */
  function Truncate(n: nat, known: seq<bool>): (r: nat)
    ensures r <= n
  {
    if known == [] then 0 else (if known[0] then n % 2 else 0) + 2 * Truncate(n / 2, known[1..])
  }

  lemma {:induction false} NoBits(k: nat)
    ensures !Bit(0, k)
  {
    if k > 0 {
      NoBits(k - 1);
    }
  }

  lemma {:induction false} LowBit(low: nat, rest: nat)
    requires low < 2
    ensures (low + 2 * rest) % 2 == low && (low + 2 * rest) / 2 == rest
  {
  }

  /** Exactly the known bits that were set are set. */
  lemma {:induction false} TruncateBit(n: nat, known: seq<bool>, k: nat)
    ensures Bit(Truncate(n, known), k) <==> Bit(n, k) && k < |known| && known[k]
    decreases k
  {
    if known == [] {
      NoBits(k);
    } else {
      LowBit(if known[0] then n % 2 else 0, Truncate(n / 2, known[1..]));
      if k > 0 {
        TruncateBit(n / 2, known[1..], k - 1);
      }
    }
  }
}
