/** The natural sort key of a file name: runs of digits compare as numbers, the
    rest as lower-case text. */
module NaturalKeys {
  import opened Base

  /** The variants and their fields compare in this order. */
  datatype Token = Number(significantLen: nat, significant: string, rawLen: nat) | Text(text: string)

  predicate IsDigit(c: char) { '0' <= c <= '9' }

  predicate AllDigits(s: string) { forall i :: 0 <= i < |s| ==> IsDigit(s[i]) }

  /** How far a run of digits, or of anything else, goes. */
  function Run(s: string, digits: bool): (n: nat)
    ensures n <= |s|
    ensures forall i :: 0 <= i < n ==> IsDigit(s[i]) == digits
    ensures n < |s| ==> IsDigit(s[n]) != digits
  {
    if s == "" || IsDigit(s[0]) != digits then 0 else 1 + Run(s[1..], digits)
  }

  function TrimZeros(s: string): (t: string)
    ensures |t| <= |s| && (t != "" ==> t[0] != '0')
  {
    if s != "" && s[0] == '0' then TrimZeros(s[1..]) else s
  }

  function LowerChar(c: char): char {
    if 'A' <= c <= 'Z' then c + ' ' else c
  }

  function Lower(s: string): (t: string)
    ensures |t| == |s|
  {
    if s == "" then "" else [LowerChar(s[0])] + Lower(s[1..])
  }

  function NumberToken(raw: string): Token {
    var significant := TrimZeros(raw);
    Number(Max(|significant|, 1), if significant == "" then "0" else significant, |raw|)
  }

  function TokenOf(run: string, digits: bool): Token {
    if digits then NumberToken(run) else Text(Lower(run))
  }

  function Key(name: string): seq<Token>
    decreases |name|
  {
    if name == "" then []
    else
      var digits := IsDigit(name[0]);
      var n := Run(name, digits);
      [TokenOf(name[..n], digits)] + Key(name[n..])
  }

  lemma {:induction false} RunIs(s: string, digits: bool, n: nat)
    requires n <= |s| && (forall i :: 0 <= i < n ==> IsDigit(s[i]) == digits)
    requires n < |s| ==> IsDigit(s[n]) != digits
    ensures Run(s, digits) == n
    decreases |s|
  {
    if n > 0 {
      RunIs(s[1..], digits, n - 1);
    }
  }

  /** Collects the characters of one run, one at a time. */
  method TakeRun(name: string, from: nat, digits: bool) returns (raw: string, at: nat)
    requires from < |name| && IsDigit(name[from]) == digits
    ensures from < at <= |name| && raw == name[from..at]
    ensures at - from == Run(name[from..], digits)
  {
    raw, at := "", from;
    while at < |name| && IsDigit(name[at]) == digits
      invariant from <= at <= |name| && raw == name[from..at]
      invariant forall i :: from <= i < at ==> IsDigit(name[i]) == digits
      decreases |name| - at
    {
      raw := raw + [name[at]];
      at := at + 1;
    }
    RunIs(name[from..], digits, at - from);
  }

  lemma {:induction false} SuffixOfSuffix(s: string, from: nat, at: nat)
    requires from <= at <= |s|
    ensures s[from..][at - from..] == s[at..] && s[from..][..at - from] == s[from..at]
  {
  }

  lemma {:induction false} KeyStep(tokens: seq<Token>, left: string, digits: bool)
    requires left != "" && IsDigit(left[0]) == digits
    ensures
      var n := Run(left, digits);
      tokens + Key(left) == (tokens + [TokenOf(left[..n], digits)]) + Key(left[n..])
  {
  }

  lemma {:induction false} KeyOfNothing(tokens: seq<Token>)
    ensures tokens + Key("") == tokens
  {
  }

  /** The tokenizer as the program runs it. */
  method NaturalNameKey(name: string) returns (tokens: seq<Token>)
    ensures tokens == Key(name)
  {
    hide TokenOf, Run, Key;
    tokens := [];
    var at: nat := 0;
    assert name[0..] == name;
    while at < |name|
      invariant at <= |name| && tokens + Key(name[at..]) == Key(name)
    {
      ghost var left := name[at..];
      var digits := IsDigit(name[at]);
      var raw, next := TakeRun(name, at, digits);
      SuffixOfSuffix(name, at, next);
      KeyStep(tokens, left, digits);
      tokens := tokens + [TokenOf(raw, digits)];
      at := next;
    }
    assert name[at..] == "";
    KeyOfNothing(tokens);
  }

  // ----- The derived order -----

  function CompareNat(a: int, b: int): int { if a < b then -1 else if a > b then 1 else 0 }

  function CompareString(a: string, b: string): int
    decreases |a|
  {
    if a == "" then (if b == "" then 0 else -1)
    else if b == "" then 1
    else if a[0] != b[0] then CompareNat(a[0] as int, b[0] as int)
    else CompareString(a[1..], b[1..])
  }

  function Then(first: int, second: int): int { if first != 0 then first else second }

  function CompareToken(a: Token, b: Token): int {
    match (a, b)
    case (Number(l, s, r), Number(l', s', r')) =>
      Then(CompareNat(l, l'), Then(CompareString(s, s'), CompareNat(r, r')))
    case (Number(_, _, _), Text(_)) => -1
    case (Text(_), Number(_, _, _)) => 1
    case (Text(t), Text(t')) => CompareString(t, t')
  }

  function CompareKey(a: seq<Token>, b: seq<Token>): int
    decreases |a|
  {
    if a == [] then (if b == [] then 0 else -1)
    else if b == [] then 1
    else Then(CompareToken(a[0], b[0]), CompareKey(a[1..], b[1..]))
  }

  // ----- The order is numeric -----

  function Pow10(n: nat): (p: nat)
    ensures p > 0
  {
    if n == 0 then 1 else 10 * Pow10(n - 1)
  }

  function Digit(c: char): (d: nat)
    requires IsDigit(c)
    ensures d < 10
  {
    c as int - '0' as int
  }

  /** The integer a run of digits of any length stands for. */
  function Value(s: string): nat
    requires AllDigits(s)
  {
    if s == "" then 0 else Digit(s[0]) * Pow10(|s| - 1) + Value(s[1..])
  }

  lemma {:induction false} Distribute(a: nat, b: nat, p: nat)
    ensures (a + b) * p == a * p + b * p && b * p >= 0
  {
  }

  lemma {:induction false} TimesBound(d: nat, e: nat, p: nat)
    requires d < e
    ensures d * p + p <= e * p
  {
    var k: nat := e - d - 1;
    Distribute(d + 1, k, p);
    Distribute(d, 1, p);
  }

  lemma {:induction false} ValueBelow(s: string)
    requires AllDigits(s)
    ensures Value(s) < Pow10(|s|)
    decreases |s|
  {
    if s != "" {
      ValueBelow(s[1..]);
      TimesBound(Digit(s[0]), 10, Pow10(|s| - 1));
    }
  }

  lemma {:induction false} Pow10Grows(a: nat, b: nat)
    requires a <= b
    ensures Pow10(a) <= Pow10(b)
    decreases b
  {
    if a < b {
      Pow10Grows(a, b - 1);
    }
  }

  /** A longer number without leading zeros is greater. */
  lemma {:induction false} LongerIsGreater(a: string, b: string)
    requires AllDigits(a) && AllDigits(b) && |a| < |b| && b[0] != '0'
    ensures Value(a) < Value(b)
  {
    ValueBelow(a);
    Pow10Grows(|a|, |b| - 1);
    TimesBound(0, Digit(b[0]), Pow10(|b| - 1));
  }

  /** Numbers of one length compare as their digits do. */
  lemma {:induction false} SameLengthCompares(a: string, b: string)
    requires AllDigits(a) && AllDigits(b) && |a| == |b|
    ensures CompareString(a, b) == CompareNat(Value(a), Value(b))
    decreases |a|
  {
    if a != "" {
      if a[0] == b[0] {
        SameLengthCompares(a[1..], b[1..]);
      } else {
        ValueBelow(a[1..]);
        ValueBelow(b[1..]);
        var p := Pow10(|a| - 1);
        if a[0] < b[0] {
          TimesBound(Digit(a[0]), Digit(b[0]), p);
        } else {
          TimesBound(Digit(b[0]), Digit(a[0]), p);
        }
      }
    }
  }

  lemma {:induction false} TrimKeepsValue(s: string)
    requires AllDigits(s)
    ensures AllDigits(TrimZeros(s)) && Value(TrimZeros(s)) == Value(s)
    decreases |s|
  {
    if s != "" && s[0] == '0' {
      TrimKeepsValue(s[1..]);
    }
  }

  /** Natural order is numeric order: number tokens compare as the integers they
      stand for, and equal integers by how many digits were written. */
  lemma {:induction false} NumbersCompareAsIntegers(a: string, b: string)
    requires AllDigits(a) && AllDigits(b) && a != "" && b != ""
    ensures CompareToken(NumberToken(a), NumberToken(b)) == Then(CompareNat(Value(a), Value(b)), CompareNat(|a|, |b|))
  {
    TrimKeepsValue(a);
    TrimKeepsValue(b);
    var x, y := NumberToken(a).significant, NumberToken(b).significant;
    assert Value("0") == 0;
    assert AllDigits(x) && Value(x) == Value(a) && |x| == NumberToken(a).significantLen;
    assert AllDigits(y) && Value(y) == Value(b) && |y| == NumberToken(b).significantLen;
    if |x| < |y| {
      LongerIsGreater(x, y);
    } else if |y| < |x| {
      LongerIsGreater(y, x);
    } else {
      SameLengthCompares(x, y);
    }
  }

  // ----- The order is total -----

  lemma {:induction false} StringTotal(a: string, b: string)
    ensures CompareString(a, b) == -CompareString(b, a)
    ensures CompareString(a, b) == 0 <==> a == b
    decreases |a|
  {
    if a != "" && b != "" && a[0] == b[0] {
      StringTotal(a[1..], b[1..]);
      assert a == [a[0]] + a[1..] && b == [b[0]] + b[1..];
    }
  }

  lemma {:induction false} StringTransitive(a: string, b: string, c: string)
    requires CompareString(a, b) <= 0 && CompareString(b, c) <= 0
    ensures CompareString(a, c) <= 0
    decreases |a|
  {
    if a != "" && b != "" && c != "" && a[0] == b[0] == c[0] {
      StringTransitive(a[1..], b[1..], c[1..]);
    }
  }

  lemma {:induction false} TokenTotal(a: Token, b: Token)
    ensures CompareToken(a, b) == -CompareToken(b, a)
    ensures CompareToken(a, b) == 0 <==> a == b
  {
    match (a, b)
    case (Number(_, s, _), Number(_, s', _)) => StringTotal(s, s');
    case (Text(t), Text(t')) => StringTotal(t, t');
    case _ =>
  }

  lemma {:induction false} TokenTransitive(a: Token, b: Token, c: Token)
    requires CompareToken(a, b) <= 0 && CompareToken(b, c) <= 0
    ensures CompareToken(a, c) <= 0
  {
    match (a, b, c)
    case (Number(_, s, _), Number(_, s', _), Number(_, s'', _)) =>
      StringTotal(s, s');
      StringTotal(s', s'');
      StringTotal(s, s'');
      if CompareString(s, s') <= 0 && CompareString(s', s'') <= 0 {
        StringTransitive(s, s', s'');
      }
    case (Text(t), Text(t'), Text(t'')) => StringTransitive(t, t', t'');
    case _ =>
  }

  /** The order on keys is total: any two compare one way or the other, and only
      equal keys compare equal. */
  lemma {:induction false} KeyTotal(a: seq<Token>, b: seq<Token>)
    ensures CompareKey(a, b) == -CompareKey(b, a)
    ensures CompareKey(a, b) == 0 <==> a == b
    decreases |a|
  {
    if a != [] && b != [] {
      TokenTotal(a[0], b[0]);
      KeyTotal(a[1..], b[1..]);
      assert a == [a[0]] + a[1..] && b == [b[0]] + b[1..];
    }
  }

  lemma {:induction false} KeyTransitive(a: seq<Token>, b: seq<Token>, c: seq<Token>)
    requires CompareKey(a, b) <= 0 && CompareKey(b, c) <= 0
    ensures CompareKey(a, c) <= 0
    decreases |a|
  {
    if a != [] && b != [] && c != [] {
      TokenTotal(a[0], b[0]);
      TokenTotal(b[0], c[0]);
      TokenTotal(a[0], c[0]);
      TokenTransitive(a[0], b[0], c[0]);
      if a[0] == b[0] == c[0] {
        KeyTransitive(a[1..], b[1..], c[1..]);
      }
    }
  }

  // ----- Where two keys first differ -----

  /** How far two sequences agree. */
  function Agree<T(==)>(a: seq<T>, b: seq<T>): (n: nat)
    ensures n <= |a| && n <= |b| && a[..n] == b[..n]
    ensures n < |a| && n < |b| ==> a[n] != b[n]
    decreases |a|
  {
    if a == [] || b == [] || a[0] != b[0] then 0
    else
      var n := Agree(a[1..], b[1..]);
      assert a[..n + 1] == [a[0]] + a[1..][..n] && b[..n + 1] == [b[0]] + b[1..][..n];
      n + 1
  }

  lemma {:induction false} AgreeIs<T>(a: seq<T>, b: seq<T>, k: nat)
    requires k <= |a| && k <= |b| && a[..k] == b[..k]
    requires (k == |a| || k == |b| || a[k] != b[k])
    ensures k == Agree(a, b)
    decreases |a|
  {
    if k > 0 {
      assert a[0] == a[..k][0] && b[0] == b[..k][0];
      assert a[1..][..k - 1] == a[..k][1..] && b[1..][..k - 1] == b[..k][1..];
      AgreeIs(a[1..], b[1..], k - 1);
    }
  }

  lemma {:induction false} StringSharedFront(front: string, a: string, b: string)
    ensures CompareString(front + a, front + b) == CompareString(a, b)
    decreases |front|
  {
    if front == "" {
      assert front + a == a && front + b == b;
    } else {
      assert (front + a)[1..] == front[1..] + a && (front + b)[1..] == front[1..] + b;
      StringSharedFront(front[1..], a, b);
    }
  }

  lemma {:induction false} FirstDecides(a: string, b: string)
    requires a == "" || b == "" || a[0] != b[0]
    ensures CompareString(a, b) < 0 <==> b != "" && (a == "" || a[0] < b[0])
  {
  }

  /** A string comes before another if and only if it is a proper front part of it, or has
      the smaller character where they first differ. */
  lemma {:induction false} StringBeforeIff(a: string, b: string)
    ensures CompareString(a, b) < 0 <==>
              exists i ::
                && 0 <= i <= |a| && i < |b| && a[..i] == b[..i]
                && (i == |a| || a[i] < b[i])
  {
    hide CompareString, Agree;
    var i := Agree(a, b);
    var front := a[..i];
    assert a == front + a[i..] && b == front + b[i..];
    StringSharedFront(front, a[i..], b[i..]);
    FirstDecides(a[i..], b[i..]);
    forall k | 0 <= k <= |a| && k < |b| && a[..k] == b[..k] && (k == |a| || a[k] < b[k]) ensures k == i {
      AgreeIs(a, b, k);
    }
  }

  lemma {:induction false} KeySharedFront(front: seq<Token>, a: seq<Token>, b: seq<Token>)
    ensures CompareKey(front + a, front + b) == CompareKey(a, b)
    decreases |front|
  {
    hide CompareToken;
    if front == [] {
      assert front + a == a && front + b == b;
    } else {
      assert (front + a)[1..] == front[1..] + a && (front + b)[1..] == front[1..] + b;
      TokenTotal(front[0], front[0]);
      KeySharedFront(front[1..], a, b);
    }
  }

  /** A number comes before any text; texts compare as strings. */
  lemma {:induction false} TokenKinds(raw: string, a: string, b: string)
    ensures CompareToken(NumberToken(raw), Text(a)) < 0 && CompareToken(Text(a), NumberToken(raw)) > 0
    ensures CompareToken(Text(a), Text(b)) == CompareString(a, b)
  {
  }

  /** A key comes before another if and only if it is a proper front part of it, or has the
      smaller token where they first differ. */
  lemma {:induction false} KeyBeforeIff(a: seq<Token>, b: seq<Token>)
    ensures CompareKey(a, b) < 0 <==>
              exists i ::
                && 0 <= i <= |a| && i < |b| && a[..i] == b[..i]
                && (i == |a| || CompareToken(a[i], b[i]) < 0)
  {
    hide CompareToken, Agree;
    var i := Agree(a, b);
    var front := a[..i];
    assert a == front + a[i..] && b == front + b[i..];
    KeySharedFront(front, a[i..], b[i..]);
    if i < |a| && i < |b| {
      TokenTotal(a[i], b[i]);
    }
    forall k | 0 <= k <= |a| && k < |b| && a[..k] == b[..k] && (k == |a| || CompareToken(a[k], b[k]) < 0)
      ensures k == i
    {
      if k < |a| {
        TokenTotal(a[k], b[k]);
      }
      AgreeIs(a, b, k);
    }
  }

  // ----- The order of names -----

  /** A new run begins between the two parts. */
  predicate RunEnds(front: string, rest: string) {
    front == "" || rest == "" || IsDigit(front[|front| - 1]) != IsDigit(rest[0])
  }

  lemma {:induction false} KeyOfFirstRun(name: string)
    requires name != ""
    ensures
      var digits := IsDigit(name[0]);
      var n := Run(name, digits);
      n > 0 && Key(name) == [TokenOf(name[..n], digits)] + Key(name[n..])
  {
    hide TokenOf;
  }

  lemma {:induction false} RunStarts(s: string)
    requires s != ""
    ensures Run(s, IsDigit(s[0])) > 0
  {
    hide IsDigit;
  }

  lemma {:induction false} Cut(front: string, rest: string, n: nat)
    requires n <= |front|
    ensures (front + rest)[..n] == front[..n] && (front + rest)[n..] == front[n..] + rest
    ensures forall i :: 0 <= i < n ==> (front + rest)[i] == front[i]
    ensures n < |front| ==> (front + rest)[n] == front[n] && front[n..][|front[n..]| - 1] == front[|front| - 1]
    ensures n == |front| && rest != "" ==> (front + rest)[n] == rest[0]
  {
  }

  /** The first run of a name does not reach past a cut where a run ends. */
  lemma {:induction false} RunBeforeCut(front: string, rest: string)
    requires RunEnds(front, rest) && front != ""
    ensures
      var digits := IsDigit(front[0]);
      var n := Run(front, digits);
      && 0 < n && Run(front + rest, digits) == n
      && (front + rest)[..n] == front[..n] && (front + rest)[n..] == front[n..] + rest
      && RunEnds(front[n..], rest)
  {
    hide Run, IsDigit;
    var digits := IsDigit(front[0]);
    var n := Run(front, digits);
    RunStarts(front);
    Cut(front, rest, n);
    if n == |front| {
      assert IsDigit(front[n - 1]) == digits;
    }
    RunIs(front + rest, digits, n);
  }

  /** The key of a name cut where a run ends is that of the parts, one after the other. */
  lemma {:induction false} KeyOfParts(front: string, rest: string)
    requires RunEnds(front, rest)
    ensures Key(front + rest) == Key(front) + Key(rest)
    decreases |front|
  {
    hide TokenOf, Run, Key, RunEnds, IsDigit;
    if front == "" {
      KeyOfNothing([]);
      assert front + rest == rest;
      assert [] + Key(rest) == Key(rest);
    } else {
      RunBeforeCut(front, rest);
      var n := Run(front, IsDigit(front[0]));
      var first := [TokenOf(front[..n], IsDigit(front[0]))];
      KeyOfFirstRun(front);
      KeyOfFirstRun(front + rest);
      KeyOfParts(front[n..], rest);
      assert first + (Key(front[n..]) + Key(rest)) == (first + Key(front[n..])) + Key(rest);
    }
  }

  lemma {:induction false} KeyOfNumber(digits: string)
    requires AllDigits(digits) && digits != ""
    ensures Key(digits) == [NumberToken(digits)]
  {
    RunIs(digits, true, |digits|);
    assert digits[..|digits|] == digits && digits[|digits|..] == "";
  }

  /** Names that agree up to a number are ordered by that number as an integer, whatever
      follows it and however many zeros it is written with: episode 2 before episode 10. */
  lemma {:induction false} NumbersOrderNames(front: string, a: string, b: string, restA: string, restB: string)
    requires AllDigits(a) && a != "" && AllDigits(b) && b != ""
    requires RunEnds(front, a) && RunEnds(front, b) && RunEnds(a, restA) && RunEnds(b, restB)
    requires Value(a) < Value(b)
    ensures CompareKey(Key(front + (a + restA)), Key(front + (b + restB))) < 0
  {
    hide Key, CompareToken, Value;
    KeyOfParts(a, restA);
    KeyOfParts(b, restB);
    KeyOfNumber(a);
    KeyOfNumber(b);
    KeyOfParts(front, a + restA);
    KeyOfParts(front, b + restB);
    KeySharedFront(Key(front), Key(a + restA), Key(b + restB));
    NumbersCompareAsIntegers(a, b);
  }

  /** A name comes before every longer one that begins a new run after it. */
  lemma {:induction false} FrontFirst(front: string, rest: string)
    requires RunEnds(front, rest) && rest != ""
    ensures CompareKey(Key(front), Key(front + rest)) < 0
  {
    hide TokenOf;
    KeyOfParts(front, rest);
    KeySharedFront(Key(front), [], Key(rest));
    assert Key(front) + [] == Key(front);
  }

  // ----- Keys and names -----

  /** Two characters are alike exactly when they are equal or the two cases of one ASCII
      letter, and what is compared holds no ASCII capitals. */
  lemma {:induction false} SameLowerIff(c: char, d: char)
    ensures LowerChar(c) == LowerChar(d) <==>
              c == d || ('A' <= c <= 'Z' && d as int == c as int + 32) || ('A' <= d <= 'Z' && c as int == d as int + 32)
    ensures !('A' <= LowerChar(c) <= 'Z') && (!('A' <= c <= 'Z') ==> LowerChar(c) == c)
  {
  }

  function ZeroDigits(n: nat): (s: string)
    ensures |s| == n
  {
    if n == 0 then "" else "0" + ZeroDigits(n - 1)
  }

  /** The characters a token stands for. */
  function Spell(t: Token): string {
    match t
    case Number(length, significant, rawLen) =>
      if significant == "0" then ZeroDigits(rawLen) else ZeroDigits(Monus(rawLen, length)) + significant
    case Text(text) => text
  }

  function SpellAll(key: seq<Token>): string {
    if key == [] then "" else Spell(key[0]) + SpellAll(key[1..])
  }

  lemma {:induction false} TrimSpells(raw: string)
    requires AllDigits(raw)
    ensures ZeroDigits(|raw| - |TrimZeros(raw)|) + TrimZeros(raw) == raw
    decreases |raw|
  {
    if raw != "" && raw[0] == '0' {
      TrimSpells(raw[1..]);
      var n := |raw| - |TrimZeros(raw)|;
      assert ZeroDigits(n) == "0" + ZeroDigits(n - 1);
      assert raw == "0" + raw[1..];
      assert ("0" + ZeroDigits(n - 1)) + TrimZeros(raw) == "0" + (ZeroDigits(n - 1) + TrimZeros(raw));
    } else {
      assert ZeroDigits(0) + raw == raw;
    }
  }

  lemma {:induction false} NumberSpells(raw: string)
    requires AllDigits(raw)
    ensures Spell(NumberToken(raw)) == raw
  {
    TrimSpells(raw);
    var significant := TrimZeros(raw);
    if significant == "" {
      assert ZeroDigits(|raw|) + "" == ZeroDigits(|raw|);
    }
  }

  lemma {:induction false} LowerAppend(a: string, b: string)
    ensures Lower(a + b) == Lower(a) + Lower(b)
    decreases |a|
  {
    if a == "" {
      assert a + b == b;
    } else {
      assert (a + b)[1..] == a[1..] + b;
      LowerAppend(a[1..], b);
    }
  }

  lemma {:induction false} LowerDigits(s: string)
    requires AllDigits(s)
    ensures Lower(s) == s
    decreases |s|
  {
    if s != "" {
      LowerDigits(s[1..]);
    }
  }

  lemma {:induction false} LowerAt(s: string, i: nat)
    requires i < |s|
    ensures Lower(s)[i] == LowerChar(s[i]) && IsDigit(Lower(s)[i]) == IsDigit(s[i])
    decreases i
  {
    if i > 0 {
      LowerAt(s[1..], i - 1);
    }
  }

  lemma {:induction false} LowerTwice(s: string)
    ensures Lower(Lower(s)) == Lower(s)
    decreases |s|
  {
    if s != "" {
      LowerTwice(s[1..]);
      assert Lower(s)[1..] == Lower(s[1..]);
    }
  }

  lemma {:induction false} LowerSlices(s: string, n: nat)
    requires n <= |s|
    ensures Lower(s)[..n] == Lower(s[..n]) && Lower(s)[n..] == Lower(s[n..])
  {
    assert s == s[..n] + s[n..];
    LowerAppend(s[..n], s[n..]);
  }

  lemma {:induction false} TokenSpells(run: string, digits: bool)
    requires forall i :: 0 <= i < |run| ==> IsDigit(run[i]) == digits
    ensures Spell(TokenOf(run, digits)) == Lower(run)
  {
    if digits {
      NumberSpells(run);
      LowerDigits(run);
    }
  }

  /** A key spells the lower-case name. */
  lemma {:induction false} KeySpells(name: string)
    ensures SpellAll(Key(name)) == Lower(name)
    decreases |name|
  {
    hide TokenOf, Spell, Lower;
    if name == "" {
      assert Lower(name) == "";
    } else {
      var digits := IsDigit(name[0]);
      var n := Run(name, digits);
      KeySpells(name[n..]);
      LowerSlices(name, n);
      TokenSpells(name[..n], digits);
      assert Lower(name) == Lower(name)[..n] + Lower(name)[n..];
    }
  }

  lemma {:induction false} KeyOfLower(name: string)
    ensures Key(Lower(name)) == Key(name)
    decreases |name|
  {
    if name != "" {
      var digits := IsDigit(name[0]);
      var n := Run(name, digits);
      forall i | 0 <= i < |name| ensures IsDigit(Lower(name)[i]) == IsDigit(name[i]) {
        LowerAt(name, i);
      }
      RunIs(Lower(name), digits, n);
      LowerSlices(name, n);
      KeyOfLower(name[n..]);
      if digits {
        LowerDigits(name[..n]);
      } else {
        LowerTwice(name[..n]);
      }
    }
  }

  /** Two names share a key if and only if they are equal in lower case. */
  lemma {:induction false} SameKeyIff(a: string, b: string)
    ensures Key(a) == Key(b) <==> Lower(a) == Lower(b)
  {
    KeySpells(a);
    KeySpells(b);
    KeyOfLower(a);
    KeyOfLower(b);
  }
}
