/** Numbers and their text: `stdstring_strtol` and `stdstring_int_to_str`. */
module Strings {
  import opened Bytes

  const LONG_MAX := 0x7fff_ffff
  const LONG_MIN := -0x8000_0000

  type Int32 = n: int | LONG_MIN <= n <= LONG_MAX

  /** Conversion of a C integer to `int32_t`. */
  function S32(x: int): (r: Int32)
    ensures LONG_MIN <= x <= LONG_MAX ==> r == x
  {
    if U32(x) <= LONG_MAX then U32(x) else U32(x) - 0x1_0000_0000
  }

  predicate IsSpace(c: int) {
    c == 32 || c == 9 || c == 10
  }

  predicate IsDigit(c: int) {
    48 <= c <= 57
  }

  predicate IsUpper(c: int) {
    65 <= c <= 90
  }

  predicate IsAlpha(c: int) {
    65 <= c <= 90 || 97 <= c <= 122
  }

  /** What a character counts as a digit, or -1. */
  function DigitValue(c: int): (d: int)
    ensures -1 <= d < 36
  {
    if IsDigit(c) then c - 48
    else if IsUpper(c) then c - 55
    else if IsAlpha(c) then c - 87
    else -1
  }

  function At(t: seq<Byte>, i: nat): int {
    if i < |t| then t[i] else 0
  }

  function SkipSpaces(t: seq<Byte>, i: nat): (r: nat)
    ensures i <= r
    ensures !IsSpace(At(t, r)) && forall k :: i <= k < r ==> IsSpace(At(t, k))
    decreases |t| - i
  {
    if i < |t| && IsSpace(t[i]) then SkipSpaces(t, i + 1) else i
  }

  /** The sign, the base and where the digits start: after spaces, a sign and, if the base allows it, a
      prefix. */
  datatype Head = Head(neg: bool, base: nat, at: nat)

  function AfterSign(t: seq<Byte>): (i: nat) {
    var i := SkipSpaces(t, 0);
    if At(t, i) == 45 || At(t, i) == 43 then i + 1 else i
  }

  function HeadOf(t: seq<Byte>, base: nat): Head {
    var neg, i := At(t, SkipSpaces(t, 0)) == 45, AfterSign(t);
    if (base == 0 || base == 16) && At(t, i) == 48 && (At(t, i + 1) == 120 || At(t, i + 1) == 88)
    then Head(neg, 16, i + 2)
    else if (base == 0 || base == 2) && At(t, i) == 48 && (At(t, i + 1) == 98 || At(t, i + 1) == 66)
    then Head(neg, 2, i + 2)
    else Head(neg, if base != 0 then base else if At(t, i) == 48 then 8 else 10, i)
  }

  /** The longest run of digits of the base from a position on. */
  function DigitRun(t: seq<Byte>, i: nat, base: nat): seq<nat>
    decreases |t| - i
  {
    if i < |t| && 0 <= DigitValue(t[i]) < base then [DigitValue(t[i])] + DigitRun(t, i + 1, base) else []
  }

  function Value(ds: seq<nat>, base: nat): nat {
    if ds == [] then 0 else Value(ds[..|ds| - 1], base) * base + ds[|ds| - 1]
  }

  /** The magnitude beyond which a number is out of range. */
  function Limit(neg: bool): nat {
    if neg then -LONG_MIN else LONG_MAX
  }

  function Signed(neg: bool, v: nat): (r: Int32)
    requires v <= Limit(neg)
  {
    if neg then 0 - v else v
  }

  datatype Parsed = Parsed(value: Int32, end: nat)

  /** The signed value of the digit run, clamped to the range of `long`, and where the text goes on; nothing is
      consumed when there is no digit. */
  function Parse(t: seq<Byte>, base: nat): Parsed {
    var h := HeadOf(t, base);
    var ds := DigitRun(t, h.at, h.base);
    if ds == [] then Parsed(0, 0)
    else Parsed(Signed(h.neg, Min(Value(ds, h.base), Limit(h.neg))), h.at + |ds|)
  }

  /** The test against `cutoff` and `cutlim` is the test against the limit, and nothing wraps. */
  lemma CutoffIsExact(limit: nat, base: nat, acc: nat, c: nat)
    requires 2 <= base && c < base
    ensures acc > limit / base || (acc == limit / base && c > limit % base) <==> acc * base + c > limit
    ensures acc <= acc * base
  {
    MulMonotone(1, base, acc);
    var q, r := limit / base, limit % base;
    assert limit == q * base + r;
    if acc < q {
      MulMonotone(acc + 1, q, base);
    } else if q < acc {
      MulMonotone(q + 1, acc, base);
    }
  }

  lemma MulMonotone(a: nat, b: nat, c: nat)
    requires a <= b
    ensures a * c <= b * c && c * a <= c * b
    ensures (a + 1) * c == a * c + c
  {
  }

  lemma ValueSnoc(ds: seq<nat>, d: nat, base: nat)
    ensures Value(ds + [d], base) == Value(ds, base) * base + d
  {
    assert (ds + [d])[..|ds|] == ds;
  }

  lemma DigitRunStep(t: seq<Byte>, from: nat, base: nat, done: seq<nat>, i: nat)
    requires DigitRun(t, from, base) == done + DigitRun(t, i, base)
    ensures i < |t| && 0 <= DigitValue(t[i]) < base ==>
              DigitRun(t, from, base) == (done + [DigitValue(t[i])]) + DigitRun(t, i + 1, base)
    ensures !(i < |t| && 0 <= DigitValue(t[i]) < base) ==> DigitRun(t, from, base) == done
  {
  }

  /** The text ends at its first NUL. */
  ghost predicate EndsAt(t: seq<Byte>, z: nat) {
    z < |t| && t[z] == 0 && forall k :: 0 <= k < z ==> t[k] != 0
  }

  /** Spaces, sign and prefix; `s` is the position after the character `c` read last. */
  method ReadHead(nptr: array<Byte>, base: nat, ghost z: nat) returns (s: nat, c: int, neg: bool, radix: nat)
    requires EndsAt(nptr[..], z)
    ensures 1 <= s <= z + 1 && c == nptr[s - 1]
    ensures HeadOf(nptr[..], base) == Head(neg, radix, s - 1)
  {
    ghost var t := nptr[..];
    c, s := nptr[0], 1;
    while IsSpace(c)
      invariant 1 <= s <= z + 1 && c == nptr[s - 1]
      invariant SkipSpaces(t, 0) == SkipSpaces(t, s - 1)
      decreases z + 1 - s
    {
      c, s := nptr[s], s + 1;
    }
    neg := false;
    if c == 45 {
      neg := true;
      c, s := nptr[s], s + 1;
    } else if c == 43 {
      c, s := nptr[s], s + 1;
    }
    radix := base;
    if (radix == 0 || radix == 16) && c == 48 && (nptr[s] == 120 || nptr[s] == 88) {
      c, s := nptr[s + 1], s + 2;
      radix := 16;
    } else if (radix == 0 || radix == 2) && c == 48 && (nptr[s] == 98 || nptr[s] == 66) {
      c, s := nptr[s + 1], s + 2;
      radix := 2;
    }
    if radix == 0 {
      radix := if c == 48 then 8 else 10;
    }
  }

  /** What the digits read so far say: none, too many, or the value in the accumulator. */
  ghost predicate Accumulated(done: seq<nat>, base: nat, limit: nat, acc: nat, any: int) {
    && any == (if done == [] then 0 else if Value(done, base) > limit then -1 else 1)
    && (any >= 0 ==> acc == Value(done, base) <= limit)
  }

  lemma AccumulatedNext(done: seq<nat>, base: nat, limit: nat, acc: nat, any: int, d: nat)
    requires Accumulated(done, base, limit, acc, any) && 2 <= base && d < base && limit < 0x1_0000_0000
    ensures var over := any < 0 || acc > limit / base || (acc == limit / base && d > limit % base);
      if over then Accumulated(done + [d], base, limit, acc, -1)
      else Accumulated(done + [d], base, limit, U32(U32(acc * base) + d), 1)
  {
    hide Value;
    ValueSnoc(done, d, base);
    CutoffIsExact(limit, base, Value(done, base), d);
  }

  /** What the value accumulated over the whole run is turned into. */
  lemma ReadAll(t: seq<Byte>, base: nat, done: seq<nat>, acc: nat, any: int)
    requires base == 0 || 2 <= base <= 36
    requires var h := HeadOf(t, base);
      done == DigitRun(t, h.at, h.base) && Accumulated(done, h.base, Limit(h.neg), acc, any)
    ensures var h := HeadOf(t, base);
      var v := if any < 0 then U32(if h.neg then LONG_MIN else LONG_MAX) else if h.neg then U32(0 - acc) else acc;
      Parse(t, base) == Parsed(S32(v), if any != 0 then h.at + |done| else 0)
  {
    hide HeadOf, DigitRun;
    if any >= 0 {
      WordOfNegative(acc);
    }
  }

  lemma WordOfNegative(v: nat)
    requires v <= 0x8000_0000
    ensures S32(U32(0 - v)) == 0 - v
  {
    assert v > 0 ==> U32(0 - v) == 0x1_0000_0000 - v;
  }

  method Strtol(nptr: array<Byte>, base: nat, ghost z: nat) returns (result: Int32, end: nat)
    requires EndsAt(nptr[..], z) && (base == 0 || 2 <= base <= 36)
    ensures Parsed(result, end) == Parse(nptr[..], base)
    ensures end <= z
  {
    hide HeadOf, Value, DigitRun, Accumulated, Parse;
    ghost var t := nptr[..];
    var s, c, neg, radix := ReadHead(nptr, base, z);
    HeadBase(t, base);
    var limit := Limit(neg);
    var cutoff, cutlim := limit / radix, limit % radix;
    var acc: nat, any := 0, 0;
    ghost var at, done: seq<nat> := s - 1, [];
    RunStarts(t, at, radix, limit);
    while true
      invariant 1 <= s <= z + 1 && c == nptr[s - 1] && at + |done| == s - 1
      invariant DigitRun(t, at, radix) == done + DigitRun(t, s - 1, radix)
      invariant Accumulated(done, radix, limit, acc, any)
      decreases z + 1 - s
    {
      DigitRunStep(t, at, radix, done, s - 1);
      var d := c;
      if IsDigit(d) {
        d := d - 48;
      } else if IsAlpha(d) {
        d := d - if IsUpper(d) then 55 else 87;
      } else {
        break;
      }
      if d >= radix {
        break;
      }
      AccumulatedNext(done, radix, limit, acc, any, d);
      if any < 0 || acc > cutoff || (acc == cutoff && d > cutlim) {
        any := -1;
      } else {
        any := 1;
        acc := U32(acc * radix);
        acc := U32(acc + d);
      }
      done := done + [d];
      c, s := nptr[s], s + 1;
    }
    assert DigitRun(t, at, radix) == done;
    ReadAll(t, base, done, acc, any);
    if any < 0 {
      acc := U32(if neg then LONG_MIN else LONG_MAX);
    } else if neg {
      acc := U32(0 - acc);
    }
    result, end := S32(acc), if any != 0 then s - 1 else 0;
  }

  lemma HeadBase(t: seq<Byte>, base: nat)
    requires base == 0 || 2 <= base <= 36
    ensures 2 <= HeadOf(t, base).base <= 36
  {
  }

  lemma RunStarts(t: seq<Byte>, at: nat, base: nat, limit: nat)
    ensures DigitRun(t, at, base) == [] + DigitRun(t, at, base) && Accumulated([], base, limit, 0, 0)
  {
  }

  /** Behind a prefix such as `0x` the digits are needed: without one nothing is consumed, not even the 0. */
  lemma PrefixNeedsDigits(t: seq<Byte>, base: nat)
    requires HeadOf(t, base).at == AfterSign(t) + 2
    ensures var h := HeadOf(t, base);
      && At(t, AfterSign(t)) == 48
      && (Parse(t, base) == Parsed(0, 0) <==> !(0 <= DigitValue(At(t, h.at)) < h.base))
      && (Parse(t, base).end == 0 || h.at < Parse(t, base).end)
  {
    var h := HeadOf(t, base);
    assert DigitRun(t, h.at, h.base) == [] <==> !(0 <= DigitValue(At(t, h.at)) < h.base);
  }

  /** The decimal digits of a number, as text. */
  function Digits(n: nat): (s: seq<Byte>)
    ensures s != [] && forall k :: 0 <= k < |s| ==> IsDigit(s[k])
  {
    if n < 10 then [48 + n] else Digits(n / 10) + [48 + n % 10]
  }

  function Decimal(n: int): seq<Byte> {
    if n < 0 then [45] + Digits(-n) else Digits(n)
  }

  /** What `stdstring_int_to_str` writes: the least number cannot be negated, and becomes `-(`. */
  function ToText(n: Int32): seq<Byte> {
    if n == LONG_MIN then [45, 40] else Decimal(n)
  }

  function Reversed(s: seq<Byte>): (r: seq<Byte>)
    ensures |r| == |s|
  {
    seq(|s|, i requires 0 <= i < |s| => s[|s| - 1 - i])
  }

  /** C division and remainder, which truncate towards zero. */
  function Quotient(a: int, b: nat): int
    requires b > 0
  {
    if a < 0 then -((-a) / b) else a / b
  }

  function Remainder(a: int, b: nat): int
    requires b > 0
  {
    if a < 0 then -((-a) % b) else a % b
  }

  function Pow10(k: nat): nat {
    if k == 0 then 1 else 10 * Pow10(k - 1)
  }

  lemma {:induction false} DigitsLength(n: nat, k: nat)
    requires k > 0 && n < Pow10(k)
    ensures |Digits(n)| <= k
  {
    if n >= 10 {
      assert k > 1;
      DigitsLength(n / 10, k - 1);
    }
  }

  method Length(str: array<Byte>, ghost z: nat) returns (len: nat)
    requires EndsAt(str[..], z)
    ensures len == z
  {
    len := 0;
    while str[len] != 0
      invariant len <= z
      decreases z - len
    {
      len := len + 1;
    }
  }

  method Reverse(str: array<Byte>, ghost z: nat)
    requires EndsAt(str[..], z)
    modifies str
    ensures str[..] == Reversed(old(str[..z])) + old(str[z..])
  {
    var n := Length(str, z);
    var i, j := 0, n - 1;
    while i < j
      invariant 0 <= i <= j + 2 && i + j == n - 1
      invariant forall k :: 0 <= k < str.Length ==>
                  str[k] == if k < i || j < k < n then old(str[n - 1 - k]) else old(str[k])
    {
      var c := str[i];
      str[i] := str[j];
      str[j] := c;
      i, j := i + 1, j - 1;
    }
  }

  lemma ReversedSnoc(s: seq<Byte>, c: Byte)
    ensures Reversed(s + [c]) == [c] + Reversed(s)
  {
  }

  /** What the digit loop leaves, read backwards, for a number that has been negated if it was negative. */
  function DigitsOf(n: Int32): (s: seq<Byte>)
    requires n >= 0 || n == LONG_MIN
  {
    if n < 0 then [40] else Digits(n)
  }

  lemma DigitsFit(n: Int32)
    requires n >= 0 || n == LONG_MIN
    ensures 1 <= |DigitsOf(n)| <= 10
  {
    assert Pow10(10) == 10_000_000_000;
    if n >= 0 {
      DigitsLength(n, 10);
    }
  }

  /** One turn of the digit loop. */
  lemma DigitWritten(n: Int32, done: seq<Byte>)
    requires n >= 0 || n == LONG_MIN
    ensures 0 < Remainder(n, 10) + 48 < 256 && LONG_MIN <= Quotient(n, 10) <= LONG_MAX
    ensures var q := Quotient(n, 10); var left := Reversed(done + [Remainder(n, 10) + 48]);
      && (q > 0 ==> q < n && Digits(n) + Reversed(done) == Digits(q) + left)
      && (q <= 0 ==> DigitsOf(n) + Reversed(done) == left)
  {
    hide Reversed;
    ReversedSnoc(done, Remainder(n, 10) + 48);
  }

  method WriteDigits(number: Int32, str: array<Byte>) returns (i: nat)
    requires str.Length >= 12 && (number >= 0 || number == LONG_MIN)
    modifies str
    ensures i <= 10 && Reversed(str[..i]) == DigitsOf(number)
    ensures (forall k :: 0 <= k < i ==> str[k] != 0) && str[i..] == old(str[..])[i..]
  {
    hide Digits, Reversed, Quotient, Remainder;
    var n := number;
    i := 0;
    DigitsFit(number);
    ReversedSize(str[..i]);
    var more := true;
    while more
      invariant i <= |DigitsOf(number)| && str[i..] == old(str[..])[i..]
      invariant forall k :: 0 <= k < i ==> str[k] != 0
      invariant more ==> (n >= 0 || n == LONG_MIN) && DigitsOf(n) + Reversed(str[..i]) == DigitsOf(number)
      invariant !more ==> Reversed(str[..i]) == DigitsOf(number)
      decreases more, n
    {
      ghost var done := str[..i];
      DigitsFit(n);
      DigitWritten(n, done);
      ReversedSize(done);
      str[i] := Remainder(n, 10) + 48;
      i := i + 1;
      assert str[..i] == done + [str[i - 1]];
      ReversedSize(str[..i]);
      n := Quotient(n, 10);
      more := n > 0;
    }
  }

  lemma ReversedSize(s: seq<Byte>)
    ensures |Reversed(s)| == |s| && forall t: seq<Byte> :: s == [] ==> t + Reversed(s) == t
  {
  }

  method IntToStr(number: Int32, str: array<Byte>)
    requires str.Length >= 12
    modifies str
    ensures var text := ToText(number); |text| <= 11 && str[..] == text + [0] + old(str[..])[|text| + 1..]
  {
    hide Digits, Reversed;
    ghost var before := str[..];
    var n: int, sign := number, number;
    if n < 0 {
      n := S32(-n);
    }
    var i := WriteDigits(n, str);
    ghost var backwards := str[..i];
    ReversedSize(backwards);
    if sign < 0 {
      ReversedSnoc(backwards, 45);
      str[i] := 45;
      i := i + 1;
      assert str[..i] == backwards + [45];
    }
    ReversedSize(str[..i]);
    assert Reversed(str[..i]) == ToText(number);
    str[i] := 0;
    assert str[i..] == [0] + before[i + 1..];
    hide ToText;
    Concats(ToText(number), [0], before[i + 1..]);
    Reverse(str, i);
  }

  /** The digit run of a text that holds digits and then something that is none. */
  lemma {:induction false} RunOfDigits(t: seq<Byte>, at: nat, n: nat)
    requires at + n < |t| && (forall k :: at <= k < at + n ==> IsDigit(t[k])) && !(0 <= DigitValue(t[at + n]) < 10)
    ensures DigitRun(t, at, 10) == Numerals(t[at..at + n])
    decreases n
  {
    if n > 0 {
      RunOfDigits(t, at + 1, n - 1);
      assert Numerals(t[at..at + n]) == [t[at] - 48] + Numerals(t[at + 1..at + n]);
    }
  }

  function Numeral(c: int): nat
    requires IsDigit(c)
  {
    c - 48
  }

  function Numerals(s: seq<Byte>): (ds: seq<nat>)
    requires forall k :: 0 <= k < |s| ==> IsDigit(s[k])
  {
    seq(|s|, i requires 0 <= i < |s| => Numeral(s[i]))
  }

  lemma {:induction false} DigitsValue(n: nat)
    ensures Value(Numerals(Digits(n)), 10) == n
  {
    if n < 10 {
      assert Numerals([48 + n]) == [n];
      ValueSnoc([], n, 10);
    } else {
      DigitsValue(n / 10);
      ValueSnoc(Numerals(Digits(n / 10)), n % 10, 10);
      assert Numerals(Digits(n)) == Numerals(Digits(n / 10)) + [n % 10];
    }
  }

  /** Reading back what was written, whatever lies behind it in the buffer, gives the number and ends at the
      terminator: for every number but the least. */
  lemma WrittenReadsBack(n: Int32, rest: seq<Byte>)
    ensures Parse(ToText(n) + [0] + rest, 10) == Parsed(n, |ToText(n)|) <==> n != LONG_MIN
  {
    var text := ToText(n);
    var t := text + [0] + rest;
    var at := if n < 0 then 1 else 0;
    assert At(t, 0) == text[0] && !IsSpace(At(t, 0));
    assert SkipSpaces(t, 0) == 0 && AfterSign(t) == at && HeadOf(t, 10) == Head(n < 0, 10, at);
    if n != LONG_MIN {
      var ds := Digits(if n < 0 then -n else n);
      assert t[at..at + |ds|] == ds;
      forall k | at <= k < at + |ds| ensures IsDigit(t[k]) {
        assert t[k] == ds[k - at];
      }
      RunOfDigits(t, at, |ds|);
      DigitsValue(if n < 0 then -n else n);
    }
  }
}
