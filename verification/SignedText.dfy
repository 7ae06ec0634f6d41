/** itoa: signed decimal or hexadecimal text, and how long it can get. */
module SignedText {
  import opened Basics
  import opened Digits
  import opened NumberText

  const MINUS: Byte := 45
  const BASE_D := 100   // 'd'
  const BASE_U := 117   // 'u'
  const BASE_X := 120   // 'x'
  const KPRINTF_BUFFER := 20

  type Int32 = v: int | INT_MIN <= v <= INT_MAX

  ////////////////////////////////////////////////////////////////////////////
  // itoa
  ////////////////////////////////////////////////////////////////////////////

  predicate SignHandled(val: Int32, base: int) {
    (base == BASE_D || base == 10) && val < 0
  }

  function Divisor(val: Int32, base: int): nat {
    if !SignHandled(val, base) && (base == BASE_X || base == 16) then 16 else 10
  }

  /** Two's complement negation, which leaves INT_MIN as it is. */
  function Negated(val: Int32): Int32 {
    if val == INT_MIN then INT_MIN else -val
  }

  /** The 64-bit word that is divided: an int converted to uint64_t is sign-extended. */
  function Magnitude(val: Int32, base: int): nat {
    (if SignHandled(val, base) then Negated(val) else val as int) % TWO_TO_64
  }

  function Sign(val: Int32, base: int): seq<Byte> {
    if SignHandled(val, base) then [MINUS] else []
  }

  /** A sign, if any, and the shortest text of the magnitude. */
  predicate ItoaText(text: seq<Byte>, val: Int32, base: int) {
    var sign := Sign(val, base);
    && |sign| <= |text| && text[..|sign|] == sign
    && Prints(text[|sign|..], Magnitude(val, base), Divisor(val, base), 0)
  }

  method Itoa(mem: array<Byte>, val: Int32, start: nat, base: int) returns (p: nat)
    requires start + |Sign(val, base)| + DigitCount(Magnitude(val, base), Divisor(val, base)) < mem.Length
    modifies mem
    ensures start <= p < mem.Length && mem[p] == 0
    ensures ItoaText(mem[start..p], val, base)
    ensures forall i :: 0 <= i < mem.Length && !(start <= i <= p) ==> mem[i] == old(mem[i])
  {
    hide LittleValue, DigitCount, Power, Prints, AllDigits, ItoaText;
    var str := start;
    p := str;
    var ud: nat := val % TWO_TO_64;
    var divisor: nat := 10;
    if (base == BASE_D || base == 10) && val < 0 {
      mem[p] := MINUS;
      p := p + 1;
      str := str + 1;
      ud := Negated(val) % TWO_TO_64;
    } else if base == BASE_X || base == 16 {
      divisor := 16;
    }
    ghost var magnitude := ud;
    ghost var t;
    p, t := WriteDigits(mem, p, ud, divisor);
    mem[p] := 0;
    SwapRound(mem, str, p, t);
    ShortestText(mem[str..p], t, magnitude, divisor);
    SignThenDigits(mem[start..p], mem[str..p], val, base);
  }

  /** The dividing loop: remainders as characters, least significant first. */
  method WriteDigits(mem: array<Byte>, str: nat, value: nat, divisor: nat)
    returns (p: nat, ghost t: seq<Byte>)
    requires 2 <= divisor <= 16 && str + DigitCount(value, divisor) < mem.Length
    modifies mem
    ensures p == str + |t| && Holds(mem, str, t)
    ensures AllDigits(t, divisor) && LittleValue(t, divisor) == value && |t| == DigitCount(value, divisor)
    ensures forall i :: 0 <= i < mem.Length && !(str <= i < p) ==> mem[i] == old(mem[i])
  {
    hide LittleValue, DigitCount, Power, AllDigits;
    var ud: nat := value;
    p, t := str, [];
    DigestStart(ud, divisor);
    while true
      invariant p == str + |t| && Holds(mem, str, t)
      invariant Digested(t, ud, value, divisor)
      invariant forall i :: 0 <= i < mem.Length && !(str <= i < p) ==> mem[i] == old(mem[i])
      decreases ud
    {
      Quotient(ud, divisor);
      DigestDigit(t, ud, ud / divisor, ud % divisor, value, divisor);
      var remainder := ud % divisor;
      var c: Byte := if remainder < 10 then remainder + 48 else remainder + 65 - 10;
      assert c == NUM[remainder];
      mem[p] := c;
      t := t + [c];
      p := p + 1;
      ud := ud / divisor;
      if ud == 0 {
        break;
      }
    }
  }

  lemma {:induction false} SignThenDigits(text: seq<Byte>, u: seq<Byte>, val: Int32, base: int)
    requires text == Sign(val, base) + u
    requires Prints(u, Magnitude(val, base), Divisor(val, base), 0)
    ensures ItoaText(text, val, base)
  {
  }

  /** The two-pointer reversal of the bytes from first up to end. */
  method SwapRound(mem: array<Byte>, first: nat, end: nat, ghost t: seq<Byte>)
    requires first < end == first + |t| && Holds(mem, first, t)
    modifies mem
    ensures mem[first..end] == Reversed(t)
    ensures forall i :: 0 <= i < mem.Length && !(first <= i < end) ==> mem[i] == old(mem[i])
  {
    var p1, p2 := first, end - 1;
    while p1 < p2
      invariant first <= p1 <= p2 + 1 <= end && p1 + p2 == first + end - 1
      invariant forall i :: first <= i < p1 || p2 < i < end ==> mem[i] == t[end - 1 - i]
      invariant forall i :: p1 <= i <= p2 ==> mem[i] == t[i - first]
      invariant forall i :: 0 <= i < mem.Length && !(first <= i < end) ==> mem[i] == old(mem[i])
    {
      var tmp := mem[p1];
      mem[p1] := mem[p2];
      mem[p2] := tmp;
      p1 := p1 + 1;
      p2 := p2 - 1;
    }
  }

  lemma {:induction false} ShortestText(u: seq<Byte>, t: seq<Byte>, val: nat, base: nat)
    requires 2 <= base <= 16 && AllDigits(t, base) && LittleValue(t, base) == val
    requires |t| == DigitCount(val, base) && u == Reversed(t)
    ensures Prints(u, val, base, 0)
  {
    ReversedDigits(t, base);
    ReversedValue(t, base);
  }

  ////////////////////////////////////////////////////////////////////////////
  // Signed decimal
  ////////////////////////////////////////////////////////////////////////////

  predicate HasSign(text: seq<Byte>) {
    text != [] && text[0] == MINUS
  }

  function Unsigned(text: seq<Byte>): seq<Byte> {
    if HasSign(text) then text[1..] else text
  }

  function SignedValue(text: seq<Byte>): int {
    if HasSign(text) then -Value(Unsigned(text), 10) else Value(text, 10)
  }

  /** Digits with no leading zero except "0" itself, and no sign before a zero. */
  predicate Canonical(text: seq<Byte>) {
    var u := Unsigned(text);
    && u != [] && AllDigits(u, 10)
    && (u[0] == ZERO ==> u == [ZERO] && !HasSign(text))
  }

  lemma {:induction false} PowerGrows(base: nat, m: nat, n: nat)
    requires base >= 1 && m <= n
    ensures Power(base, m) <= Power(base, n)
    decreases n
  {
    if m >= n {
    } else {
      PowerGrows(base, m, n - 1);
      PowerPositive(base, n - 1);
      Monotone(1, base, Power(base, n - 1));
    }
  }

  lemma {:induction false} CountAtMost(val: nat, base: nat, n: nat)
    requires base >= 2 && n >= 1 && val < Power(base, n)
    ensures DigitCount(val, base) <= n
  {
    DigitCountBounds(val, base);
    if DigitCount(val, base) > n {
      PowerGrows(base, n, DigitCount(val, base) - 1);
    }
  }

  lemma {:induction false} CountAtLeast(val: nat, base: nat, n: nat)
    requires base >= 2 && n >= 1 && Power(base, n) <= val
    ensures DigitCount(val, base) > n
  {
    DigitCountBounds(val, base);
    if DigitCount(val, base) <= n {
      PowerGrows(base, DigitCount(val, base), n);
    }
  }

  /** A shortest text starts with a zero only if it is "0". */
  lemma {:induction false} ShortestHasNoLeadingZero(u: seq<Byte>, val: nat)
    requires Prints(u, val, 10, 0)
    ensures u != [] && (u[0] == ZERO ==> u == [ZERO] && val == 0)
  {
    if val == 0 {
      ZeroValueIsZeros(u, 10);
      assert u == [u[0]];
    } else {
      PaddedOnTheLeft(u, val, 10, 0);
    }
  }

  /** A text with no leading zero is as long as its value needs. */
  lemma {:induction false} NoLeadingZeroIsShortest(u: seq<Byte>)
    requires u != [] && AllDigits(u, 10) && (u[0] == ZERO ==> u == [ZERO])
    ensures Value(u, 10) >= 0 && Prints(u, Value(u, 10), 10, 0)
  {
    ValueBounds(u, 10);
    var rest := u[1..];
    assert u == [u[0]] + rest;
    ValuePrepend(u[0], rest, 10);
    ValueBounds(rest, 10);
    PowerPositive(10, |rest|);
    if u[0] != ZERO {
      assert IsDigit(u[0], 10);
      Monotone(1, Digit(u[0]), Power(10, |rest|));
    }
    DigitCountIs(Value(u, 10), 10, |u|);
  }

  /** Two canonical texts of one value are one text. */
  lemma {:induction false} CanonicalIsUnique(s: seq<Byte>, t: seq<Byte>)
    requires Canonical(s) && Canonical(t) && SignedValue(s) == SignedValue(t)
    ensures s == t
  {
    CanonicalSign(s);
    CanonicalSign(t);
    NoLeadingZeroIsShortest(Unsigned(s));
    NoLeadingZeroIsShortest(Unsigned(t));
    PrintsOneText(Unsigned(s), Unsigned(t), Value(Unsigned(s), 10), 10, 0);
    assert HasSign(s) ==> s == [MINUS] + Unsigned(s);
    assert HasSign(t) ==> t == [MINUS] + Unsigned(t);
  }

  /** The sign of a canonical text is the sign of its value. */
  lemma {:induction false} CanonicalSign(s: seq<Byte>)
    requires Canonical(s)
    ensures HasSign(s) <==> SignedValue(s) < 0
  {
    var u := Unsigned(s);
    NoLeadingZeroIsShortest(u);
    if Value(u, 10) == 0 {
      ZeroValueIsZeros(u, 10);
      assert u[0] == ZERO;
    }
  }

  /** Decimal itoa prints the canonical text of its argument exactly when the argument is
      not INT_MIN. */
  lemma {:induction false} DecimalIsCanonical(text: seq<Byte>, val: Int32, base: int)
    requires (base == BASE_D || base == 10) && ItoaText(text, val, base)
    ensures Canonical(text) && SignedValue(text) == val <==> val != INT_MIN
  {
    var u := text[|Sign(val, base)|..];
    ShortestHasNoLeadingZero(u, Magnitude(val, base));
    if val < 0 {
      assert text[0] == text[..1][0] == MINUS;
      assert Unsigned(text) == u;
    } else {
      assert text == u && IsDigit(u[0], 10);
    }
  }

  ////////////////////////////////////////////////////////////////////////////
  // What is printed in each base
  ////////////////////////////////////////////////////////////////////////////

  /** 'x' (120) and 16: the shortest hexadecimal of the value sign-extended to 64 bits. */
  lemma {:induction false} HexadecimalText(text: seq<Byte>, val: Int32, base: int)
    requires base == 120 || base == 16
    ensures ItoaText(text, val, base) <==> Prints(text, val % 0x1_0000_0000_0000_0000, 16, 0)
  {
    assert text[0..] == text;
  }

  /** 'd' (100) and 10: a minus sign (45) exactly before a negative value, then the shortest
      decimal of its absolute value, or for INT_MIN of 2^64 - 2^31. */
  lemma {:induction false} DecimalText(text: seq<Byte>, val: Int32, base: int)
    requires base == 100 || base == 10
    ensures val >= 0 ==> (ItoaText(text, val, base) <==> Prints(text, val, 10, 0))
    ensures -0x8000_0000 < val < 0 ==>
      (ItoaText(text, val, base) <==> text != [] && text[0] == 45 && Prints(text[1..], -val, 10, 0))
    ensures val == -0x8000_0000 ==>
      (ItoaText(text, val, base) <==>
         text != [] && text[0] == 45 && Prints(text[1..], 0xFFFF_FFFF_8000_0000, 10, 0))
  {
    hide Prints;
    if val >= 0 {
      assert text[0..] == text;
    } else {
      var n := if val == INT_MIN then 0xFFFF_FFFF_8000_0000 else -val;
      assert Magnitude(val, base) == n && Divisor(val, base) == 10 && Sign(val, base) == [45];
      SignedBy45(text, val, base, n);
    }
  }

  lemma {:induction false} SignedBy45(text: seq<Byte>, val: Int32, base: int, n: nat)
    requires Magnitude(val, base) == n && Divisor(val, base) == 10 && Sign(val, base) == [45]
    ensures ItoaText(text, val, base) <==> text != [] && text[0] == 45 && Prints(text[1..], n, 10, 0)
  {
    hide Prints, Magnitude, Divisor, Sign;
    if text != [] {
      assert text[..1] == [text[0]];
    }
  }

  /** 'u' (117) and every other base: the shortest decimal of the value sign-extended to 64
      bits, which is the value itself from zero up. */
  lemma {:induction false} OtherText(text: seq<Byte>, val: Int32, base: int)
    requires base != 100 && base != 10 && base != 120 && base != 16
    ensures ItoaText(text, val, base) <==> Prints(text, val % 0x1_0000_0000_0000_0000, 10, 0)
    ensures val >= 0 ==> (ItoaText(text, val, base) <==> Prints(text, val, 10, 0))
  {
    assert text[0..] == text;
  }

  ////////////////////////////////////////////////////////////////////////////
  // Lengths
  ////////////////////////////////////////////////////////////////////////////

  lemma {:induction false} Powers()
    ensures Power(10, 10) == 10_000_000_000
    ensures Power(10, 19) == 10_000_000_000_000_000_000
    ensures Power(10, 20) == 100_000_000_000_000_000_000
    ensures Power(16, 16) == TWO_TO_64
  {
    assert Power(10, 5) == 100_000;
    assert Power(10, 10) == 10_000_000_000;
    assert Power(10, 15) == 1_000_000_000_000_000;
    assert Power(10, 19) == 10_000_000_000_000_000_000;
    assert Power(16, 4) == 0x1_0000;
    assert Power(16, 8) == 0x1_0000_0000;
    assert Power(16, 12) == 0x1_0000_0000_0000;
  }

  /** With its NUL, decimal text above INT_MIN takes at most 12 bytes, hexadecimal at most 17. */
  lemma {:induction false} ItoaLengths(text: seq<Byte>, val: Int32, base: int)
    requires ItoaText(text, val, base)
    ensures (base == BASE_D || base == 10) && val != INT_MIN ==> |text| + 1 <= 12
    ensures base == BASE_X || base == 16 ==> |text| + 1 <= 17
  {
    Powers();
    var magnitude := Magnitude(val, base);
    if (base == BASE_D || base == 10) && val != INT_MIN {
      CountAtMost(magnitude, 10, 10);
    } else if base == BASE_X || base == 16 {
      CountAtMost(magnitude, 16, 16);
    }
  }

  /** The text and its NUL fit kprintf's buffer exactly when the directive is 'd' and the
      value is not INT_MIN, 'u' and the value is not negative, or 'x'. */
  lemma {:induction false} FitsKprintfBuffer(text: seq<Byte>, val: Int32, base: int)
    requires base == BASE_D || base == BASE_U || base == BASE_X
    requires ItoaText(text, val, base)
    ensures |text| + 1 <= KPRINTF_BUFFER <==>
      || (base == BASE_D && val != INT_MIN)
      || (base == BASE_U && val >= 0)
      || base == BASE_X
  {
    Powers();
    ItoaLengths(text, val, base);
    var magnitude := Magnitude(val, base);
    if base == BASE_D && val == INT_MIN {
      CountAtLeast(magnitude, 10, 19);
    } else if base == BASE_U && val < 0 {
      CountAtLeast(magnitude, 10, 19);
    } else if base == BASE_U {
      CountAtMost(magnitude, 10, 10);
    }
  }
}
