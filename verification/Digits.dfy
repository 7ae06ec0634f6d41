/** Positional notation: texts of digit characters, their value, and the one text of a
    given length that has a given value. */
module Digits {
  import opened Basics

  /** "0123456789ABCDEF" */
  const NUM: seq<Byte> := [48, 49, 50, 51, 52, 53, 54, 55, 56, 57, 65, 66, 67, 68, 69, 70]
  const ZERO: Byte := 48

  function Digit(c: Byte): int {
    if c >= 65 then c - 55 else c - 48
  }

  predicate IsDigit(c: Byte, base: nat) {
    (48 <= c < 58 || 65 <= c < 71) && Digit(c) < base
  }

  predicate AllDigits(t: seq<Byte>, base: nat) {
    forall i :: 0 <= i < |t| ==> IsDigit(t[i], base)
  }

  lemma {:induction false} NumDigit(d: nat, base: nat)
    requires d < base <= 16
    ensures IsDigit(NUM[d], base) && Digit(NUM[d]) == d && NUM[d] != 0
  {
  }

  /** The characters themselves: '0' to '9' are 48 to 57, 'A' to 'F' are 65 to 70. */
  lemma {:induction false} DigitCharacters(c: Byte, base: nat)
    requires 2 <= base <= 16
    ensures IsDigit(c, base) <==> (48 <= c < 48 + base && c < 58) || 65 <= c < 55 + base
    ensures 48 <= c < 58 ==> Digit(c) == c - 48
    ensures 65 <= c < 71 ==> Digit(c) == c - 55
    ensures |NUM| == 16 && forall d :: 0 <= d < 16 ==> NUM[d] == if d < 10 then 48 + d else 55 + d
  {
  }

  function Power(base: nat, n: nat): nat {
    if n == 0 then 1 else base * Power(base, n - 1)
  }

  lemma {:induction false} Monotone(a: int, b: int, c: int)
    requires a <= b && 0 <= c
    ensures a * c <= b * c
  {
  }

  lemma {:induction false} Quotient(val: nat, base: nat)
    requires base >= 2
    ensures val == base * (val / base) + val % base && 0 <= val % base < base
    ensures val >= base ==> 1 <= val / base < val
    ensures val < base ==> val / base == 0 && val % base == val
  {
  }

  /** Dividing by the base moves a value down one power. */
  lemma {:induction false} QuotientBounds(val: nat, base: nat, bound: nat)
    requires base >= 2
    ensures val < base * bound <==> val / base < bound
  {
    Quotient(val, base);
    var q, r := val / base, val % base;
    var d := q - bound;
    assert base * d == base * q - base * bound;
    assert base * d == d * base;
    MultipleIsFar(d, base);
    MultipleIsFar(d + 1, base);
    assert (d + 1) * base == d * base + base;
  }

  /** The value of a text, read from the left. */
  function Value(t: seq<Byte>, base: nat): int {
    if t == [] then 0 else Value(t[..|t| - 1], base) * base + Digit(t[|t| - 1])
  }

  /** The value of a text written least significant digit first. */
  function LittleValue(t: seq<Byte>, base: nat): int {
    if t == [] then 0 else LittleValue(t[..|t| - 1], base) + Digit(t[|t| - 1]) * Power(base, |t| - 1)
  }

  function Reversed(t: seq<Byte>): (r: seq<Byte>)
    ensures |r| == |t| && forall i :: 0 <= i < |t| ==> r[i] == t[|t| - 1 - i]
  {
    seq(|t|, i requires 0 <= i < |t| => t[|t| - 1 - i])
  }

  lemma {:induction false} ValuePrepend(c: Byte, t: seq<Byte>, base: nat)
    ensures Value([c] + t, base) == Digit(c) * Power(base, |t|) + Value(t, base)
  {
    if t == [] {
      assert [c] + t == [c] && [c][..0] == [];
    } else {
      var init := t[..|t| - 1];
      assert ([c] + t)[..|t|] == [c] + init;
      ValuePrepend(c, init, base);
      Regroup(Digit(c), Power(base, |init|), Value(init, base), base);
    }
  }

  lemma {:induction false} Regroup(a: int, p: int, v: int, base: int)
    ensures (a * p + v) * base == a * (base * p) + v * base
  {
  }

  /** Reversing turns one reading into the other. */
  lemma {:induction false} ReversedValue(t: seq<Byte>, base: nat)
    ensures Value(Reversed(t), base) == LittleValue(t, base)
  {
    if t == [] {
    } else {
      var init, last := t[..|t| - 1], t[|t| - 1];
      ReversedValue(init, base);
      assert Reversed(t) == [last] + Reversed(init);
      ValuePrepend(last, Reversed(init), base);
    }
  }

  lemma {:induction false} LittleAppend(t: seq<Byte>, c: Byte, base: nat)
    ensures LittleValue(t + [c], base) == LittleValue(t, base) + Digit(c) * Power(base, |t|)
  {
  }

  lemma {:induction false} PowerPositive(base: nat, n: nat)
    requires base > 0
    ensures Power(base, n) > 0
  {
    if n == 0 {
    } else {
      PowerPositive(base, n - 1);
    }
  }

  lemma {:induction false} HornerStep(v: int, d: int, base: int, p: int)
    requires 0 <= v < p && 0 <= d < base
    ensures 0 <= v * base + d < base * p
  {
    Monotone(v + 1, p, base);
    Monotone(0, v, base);
    assert (v + 1) * base == v * base + base;
  }

  lemma {:induction false} ValueBounds(t: seq<Byte>, base: nat)
    requires AllDigits(t, base)
    ensures 0 <= Value(t, base) < Power(base, |t|)
  {
    if t == [] {
    } else {
      var init, c := t[..|t| - 1], t[|t| - 1];
      assert IsDigit(c, base);
      ValueBounds(init, base);
      HornerStep(Value(init, base), Digit(c), base, Power(base, |init|));
    }
  }

  /** Digit texts of one length and one value are one text. */
  lemma {:induction false} ValueDeterminesText(s: seq<Byte>, t: seq<Byte>, base: nat)
    requires |s| == |t| && AllDigits(s, base) && AllDigits(t, base)
    requires Value(s, base) == Value(t, base)
    ensures s == t
  {
    if s == [] {
    } else {
      var s0, t0 := s[..|s| - 1], t[..|t| - 1];
      var a, b := s[|s| - 1], t[|t| - 1];
      SameQuotientAndRemainder(Value(s0, base), Value(t0, base), Digit(a), Digit(b), base);
      ValueDeterminesText(s0, t0, base);
      assert s == s0 + [a] && t == t0 + [b];
    }
  }

  lemma {:induction false} SameQuotientAndRemainder(p: int, q: int, x: int, y: int, base: nat)
    requires 0 <= x < base && 0 <= y < base && p * base + x == q * base + y
    ensures p == q && x == y
  {
    var d := p - q;
    assert d * base == y - x;
    MultipleIsFar(d, base);
  }

  /** How many digits the shortest text of a value has; zero has one. */
  function DigitCount(val: nat, base: nat): (n: nat)
    requires base >= 2
    ensures n >= 1
    decreases val
  {
    Quotient(val, base);
    if val < base then 1 else 1 + DigitCount(val / base, base)
  }

  /** The count is the one n with base^(n-1) <= val < base^n, or 1 below the base. */
  lemma {:induction false} DigitCountBounds(val: nat, base: nat)
    requires base >= 2
    ensures val < Power(base, DigitCount(val, base))
    ensures DigitCount(val, base) > 1 ==> Power(base, DigitCount(val, base) - 1) <= val
    decreases val
  {
    Quotient(val, base);
    PowerOne(base);
    if val < base {
    } else {
      var n := DigitCount(val / base, base);
      DigitCountBounds(val / base, base);
      QuotientBounds(val, base, Power(base, n));
      if n > 1 {
        QuotientBounds(val, base, Power(base, n - 1));
      }
    }
  }

  lemma {:induction false} PowerOne(base: nat)
    ensures Power(base, 1) == base
  {
  }

  /** Between consecutive powers the count is fixed. */
  lemma {:induction false} DigitCountIs(val: nat, base: nat, n: nat)
    requires base >= 2 && n >= 1 && val < Power(base, n)
    requires n > 1 ==> Power(base, n - 1) <= val
    ensures DigitCount(val, base) == n
    decreases n
  {
    Quotient(val, base);
    PowerOne(base);
    if n <= 1 {
    } else {
      PowerAtLeastBase(base, n - 1);
      QuotientBounds(val, base, Power(base, n - 1));
      if n > 2 {
        QuotientBounds(val, base, Power(base, n - 2));
      }
      DigitCountIs(val / base, base, n - 1);
    }
  }

  lemma {:induction false} PowerAtLeastBase(base: nat, n: nat)
    requires base >= 1 && n >= 1
    ensures Power(base, n) >= base
  {
    PowerPositive(base, n - 1);
    Monotone(1, Power(base, n - 1), base);
  }

  function Max(a: int, b: int): (m: int)
    ensures m >= a && m >= b && (m == a || m == b)
  {
    if a >= b then a else b
  }

  /** What the printing routines promise: digits only, of the given value, as long as the
      minimum asks and the value needs. */
  predicate Prints(t: seq<Byte>, val: nat, base: nat, min: int)
    requires base >= 2
  {
    AllDigits(t, base) && Value(t, base) == val && |t| == Max(min, DigitCount(val, base))
  }

  /** There is one such text. */
  lemma {:induction false} PrintsOneText(s: seq<Byte>, t: seq<Byte>, val: nat, base: nat, min: int)
    requires base >= 2 && Prints(s, val, base, min) && Prints(t, val, base, min)
    ensures s == t
  {
    ValueDeterminesText(s, t, base);
  }

  lemma {:induction false} Distribute(v: int, base: int, d: int, p: int)
    ensures (v * base + d) * p == v * (base * p) + d * p
  {
  }

  lemma {:induction false} ValueSplit(t: seq<Byte>, base: nat, k: nat)
    requires k <= |t|
    ensures Value(t, base) == Value(t[..k], base) * Power(base, |t| - k) + Value(t[k..], base)
    decreases |t| - k
  {
    if k == |t| {
      assert t[..k] == t && t[k..] == [];
    } else {
      ValueSplit(t, base, k + 1);
      var hi, c, lo := t[..k], t[k], t[k + 1..];
      assert t[..k + 1] == hi + [c] && (hi + [c])[..k] == hi;
      assert t[k..] == [c] + lo;
      ValuePrepend(c, lo, base);
      var p := Power(base, |lo|);
      Distribute(Value(hi, base), base, Digit(c), p);
    }
  }

  lemma {:induction false} ZeroValueIsZeros(t: seq<Byte>, base: nat)
    requires AllDigits(t, base) && Value(t, base) == 0
    ensures forall i :: 0 <= i < |t| ==> t[i] == ZERO
  {
    if t == [] {
    } else {
      var init := t[..|t| - 1];
      assert base > 0;
      ValueBounds(init, base);
      MultipleIsFar(Value(init, base), base);
      ZeroValueIsZeros(init, base);
      assert t == init + [t[|t| - 1]];
    }
  }

  /** Padding is zeros, on the left only: they fill exactly the width the value does not
      need, and what follows them starts with a non-zero digit unless the value is zero. */
  lemma {:induction false} PaddedOnTheLeft(t: seq<Byte>, val: nat, base: nat, min: int)
    requires base >= 2 && Prints(t, val, base, min)
    ensures var pad := |t| - DigitCount(val, base);
      && 0 <= pad
      && (forall i :: 0 <= i < pad ==> t[i] == ZERO)
      && (val != 0 ==> t[pad] != ZERO)
      && Prints(t[pad..], val, base, 0)
  {
    hide Value, Power, DigitCount, Digit;
    var n := DigitCount(val, base);
    var pad := |t| - n;
    ValueSplit(t, base, pad);
    ValueBounds(t[..pad], base);
    ValueBounds(t[pad..], base);
    DigitCountBounds(val, base);
    var hi := Value(t[..pad], base);
    MultipleIsFar(hi, Power(base, n));
    assert hi == 0;
    ZeroValueIsZeros(t[..pad], base);
    forall i | 0 <= i < pad ensures t[i] == ZERO {
      assert t[..pad][i] == ZERO;
    }
    if val != 0 {
      LeadingDigit(t[pad..], val, base);
    }
  }

  /** With no more digits than the value needs, the first is no zero. */
  lemma {:induction false} LeadingDigit(u: seq<Byte>, val: nat, base: nat)
    requires base >= 2 && AllDigits(u, base) && Value(u, base) == val != 0 && |u| == DigitCount(val, base)
    ensures u != [] && u[0] != ZERO
  {
    hide DigitCount;
    DigitCountBounds(val, base);
    assert u == [u[0]] + u[1..];
    ValuePrepend(u[0], u[1..], base);
    ValueBounds(u[1..], base);
  }
}
