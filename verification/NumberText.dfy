/** The number printers of the libc: digits written least significant first into a buffer
    and reversed in place. */
module NumberText {
  import opened Basics
  import opened CString
  import opened Digits

  const UINT_MAX := 0xFFFF_FFFF
  const ULLONG_MAX := 0xFFFF_FFFF_FFFF_FFFF
  const INT_MIN := -0x8000_0000
  const INT_MAX := 0x7FFF_FFFF
  const TWO_TO_64 := 0x1_0000_0000_0000_0000

  ////////////////////////////////////////////////////////////////////////////
  // strreverse
  ////////////////////////////////////////////////////////////////////////////

  /** Bitwise exclusive or. */
  function Xor(a: nat, b: nat): (r: nat)
    ensures r <= a + b
    decreases a + b
  {
    Halves(a, b);
    if a == 0 && b == 0 then 0 else 2 * Xor(a / 2, b / 2) + (a + b) % 2
  }

  lemma {:induction false} Halves(a: nat, b: nat)
    ensures 0 <= a / 2 <= a && 0 <= b / 2 <= b && 0 <= (a + b) % 2
    ensures 2 * (a / 2 + b / 2) + (a + b) % 2 <= a + b
    ensures a > 0 || b > 0 ==> a / 2 + b / 2 < a + b
  {
  }

  lemma {:induction false} XorCommutes(a: nat, b: nat)
    ensures Xor(a, b) == Xor(b, a)
    decreases a + b
  {
    if a == 0 && b == 0 {
    } else {
      XorCommutes(a / 2, b / 2);
    }
  }

  lemma {:induction false} XorBits(a: nat, b: nat)
    ensures Xor(a, b) / 2 == Xor(a / 2, b / 2) && Xor(a, b) % 2 == (a + b) % 2
  {
  }

  lemma {:induction false} CancelStep(a: nat, b: nat, x: nat, y: nat)
    requires x % 2 == (a + b) % 2 && y % 2 == (x + b) % 2 && y / 2 == a / 2
    ensures y == a
  {
  }

  lemma {:induction false} ReversedDigits(t: seq<Byte>, base: nat)
    requires AllDigits(t, base)
    ensures AllDigits(Reversed(t), base)
  {
  }

  lemma {:induction false} XorCancels(a: nat, b: nat)
    ensures Xor(Xor(a, b), b) == a
    decreases a + b
  {
    if a == 0 && b == 0 {
    } else {
      hide Xor;
      var x := Xor(a, b);
      XorBits(a, b);
      XorBits(x, b);
      XorCancels(a / 2, b / 2);
      CancelStep(a, b, x, Xor(x, b));
    }
  }

  lemma {:induction false} XorHalves(a: nat, b: nat, bound: nat)
    requires a < 2 * bound && b < 2 * bound
    requires Xor(a / 2, b / 2) < bound
    ensures Xor(a, b) < 2 * bound
  {
  }

  /** The exclusive or of two bytes is a byte. */
  lemma {:induction false} XorOfBytes(a: Byte, b: Byte)
    ensures Xor(a, b) < 256
  {
    XorBelow(a, b, 8);
  }

  lemma {:induction false} XorBelow(a: nat, b: nat, bits: nat)
    requires a < Power(2, bits) && b < Power(2, bits)
    ensures Xor(a, b) < Power(2, bits)
  {
    if bits == 0 {
    } else {
      XorBelow(a / 2, b / 2, bits - 1);
      XorHalves(a, b, Power(2, bits - 1));
    }
  }

  function XorByte(a: Byte, b: Byte): Byte {
    XorOfBytes(a, b);
    Xor(a, b)
  }

  /** Three exclusive ors swap two different cells. */
  method XorSwap(mem: array<Byte>, p1: nat, p2: nat)
    requires p1 < p2 < mem.Length
    modifies mem
    ensures mem[p1] == old(mem[p2]) && mem[p2] == old(mem[p1])
    ensures forall i :: 0 <= i < mem.Length && i != p1 && i != p2 ==> mem[i] == old(mem[i])
  {
    ghost var a, b := mem[p1], mem[p2];
    mem[p1] := XorByte(mem[p1], mem[p2]);
    mem[p2] := XorByte(mem[p2], mem[p1]);
    XorCommutes(b, Xor(a, b));
    XorCancels(a, b);
    mem[p1] := XorByte(mem[p1], mem[p2]);
    XorCommutes(a, b);
    XorCancels(b, a);
  }

  /** The string of length n at s is turned round and nothing else changes. */
  twostate predicate Turned(mem: array<Byte>, s: nat, n: nat)
    requires s + n <= mem.Length
    reads mem
  {
    && (forall i :: s <= i < s + n ==> mem[i] == old(mem[2 * s + n - 1 - i]))
    && forall i :: 0 <= i < mem.Length && !(s <= i < s + n) ==> mem[i] == old(mem[i])
  }

  /** The loop of strreverse: two pointers move towards each other and swap. */
  method SwapEnds(mem: array<Byte>, s: nat, n: nat)
    requires 0 < n && s + n <= mem.Length
    modifies mem
    ensures Turned(mem, s, n)
  {
    ghost var was := mem[..];
    var p1, p2 := s, s + n - 1;
    while p2 > p1
      invariant s <= p1 <= p2 + 1 && p1 + p2 == 2 * s + n - 1
      invariant forall i :: s <= i < p1 || p2 < i < s + n ==> mem[i] == was[2 * s + n - 1 - i]
      invariant forall i :: p1 <= i <= p2 ==> mem[i] == was[i]
      invariant forall i :: 0 <= i < mem.Length && !(s <= i < s + n) ==> mem[i] == was[i]
      decreases p2 - p1
    {
      XorSwap(mem, p1, p2);
      p1, p2 := p1 + 1, p2 - 1;
    }
    forall i | s <= i < s + n ensures mem[i] == was[2 * s + n - 1 - i] {
      assert p1 <= i <= p2 ==> i == 2 * s + n - 1 - i;
    }
  }

  method Strreverse(mem: array<Byte>, str: Option<nat>) returns (r: Option<nat>)
    requires str.Some? ==> IsString(mem[..], str.value)
    modifies mem
    ensures r == str
    ensures str.None? ==> forall i :: 0 <= i < mem.Length ==> mem[i] == old(mem[i])
    ensures str.Some? ==>
      var n := StrLen(old(mem[..]), str.value);
      str.value + n < mem.Length && Turned(mem, str.value, n)
  {
    hide StrLen;
    r := str;
    if str.None? || mem[str.value] == 0 {
      return;
    }
    var n := Strlen(mem, str.value);
    SwapEnds(mem, str.value, n);
  }

  ////////////////////////////////////////////////////////////////////////////
  // Digits, least significant first
  ////////////////////////////////////////////////////////////////////////////

  /** t holds the low digits of val and v is what is left of it. */
  ghost predicate Digested(t: seq<Byte>, v: nat, val: nat, base: nat) {
    && 2 <= base <= 16
    && AllDigits(t, base)
    && LittleValue(t, base) + v * Power(base, |t|) == val
    && |t| + DigitCount(v, base) == DigitCount(val, base)
  }

  lemma {:induction false} DigestStart(val: nat, base: nat)
    requires 2 <= base <= 16
    ensures Digested([], val, val, base)
  {
  }

  lemma {:induction false} DigestDigit(t: seq<Byte>, v: nat, q: nat, d: nat, val: nat, base: nat)
    requires Digested(t, v, val, base)
    requires q == v / base && d == v % base && d < 16
    ensures q != 0 ==> Digested(t + [NUM[d]], q, val, base) && q < v
    ensures q == 0 ==>
      var u := t + [NUM[d]];
      AllDigits(u, base) && LittleValue(u, base) == val && |u| == DigitCount(val, base)
  {
    Quotient(v, base);
    NumDigit(d, base);
    LittleAppend(t, NUM[d], base);
    CarryDown(v, base, Power(base, |t|));
  }

  lemma {:induction false} CarryDown(v: nat, base: nat, p: nat)
    requires base >= 2
    ensures v * p == v % base * p + v / base * (base * p)
  {
  }

  lemma {:induction false} DigestZero(t: seq<Byte>, base: nat)
    requires 2 <= base <= 16 && AllDigits(t, base)
    ensures AllDigits(t + [ZERO], base) && LittleValue(t + [ZERO], base) == LittleValue(t, base)
  {
  }

  /** The memory holds t at buf. */
  ghost predicate Holds(mem: array<Byte>, buf: nat, t: seq<Byte>)
    reads mem
  {
    buf + |t| <= mem.Length && forall i :: buf <= i < buf + |t| ==> mem[i] == t[i - buf]
  }

  /** A digit text with its NUL, turned round, is the printed text. */
  method TurnRound(mem: array<Byte>, buf: nat, ghost t: seq<Byte>, ghost val: nat, ghost base: nat, ghost min: int)
    requires buf + |t| < mem.Length && Holds(mem, buf, t) && mem[buf + |t|] == 0
    requires 2 <= base <= 16 && AllDigits(t, base)
    requires LittleValue(t, base) == val && |t| == Max(min, DigitCount(val, base))
    modifies mem
    ensures Prints(mem[buf..buf + |t|], val, base, min) && mem[buf + |t|] == 0
    ensures forall i :: 0 <= i < mem.Length && !(buf <= i < buf + |t|) ==> mem[i] == old(mem[i])
  {
    hide Value, LittleValue, DigitCount, StrLen;
    StrLenIs(mem[..], buf, |t|);
    var r := Strreverse(mem, Some(buf));
    assert mem[buf..buf + |t|] == Reversed(t);
    ReversedDigits(t, base);
    ReversedValue(t, base);
  }

  ////////////////////////////////////////////////////////////////////////////
  // u64toa and uitoa
  ////////////////////////////////////////////////////////////////////////////

  /** Room for the longest text the call can write, and its NUL. */
  predicate HasRoom(size: nat, buf: nat, val: nat, base: int, min: int) {
    if 2 <= base <= 16 then buf + Max(min, DigitCount(val, base)) < size else buf < size
  }

  /** Text of length max(min, digit count) with the value, NUL-terminated; the empty text for
      a base outside 2..16.  No byte outside the text and its NUL changes. */
  method U64toa(mem: array<Byte>, buf: nat, value: nat, base: int, minimum: int) returns (r: nat)
    requires value <= ULLONG_MAX && HasRoom(mem.Length, buf, value, base, minimum)
    modifies mem
    ensures r == buf
    ensures !(2 <= base <= 16) ==>
      mem[buf] == 0 && forall i :: 0 <= i < mem.Length && i != buf ==> mem[i] == old(mem[i])
    ensures 2 <= base <= 16 ==>
      var n := Max(minimum, DigitCount(value, base));
      && Prints(mem[buf..buf + n], value, base, minimum) && mem[buf + n] == 0
      && forall i :: 0 <= i < mem.Length && !(buf <= i <= buf + n) ==> mem[i] == old(mem[i])
  {
    hide LittleValue, DigitCount, Power, Prints, AllDigits;
    r := buf;
    var wstr, val: nat, min := buf, value, minimum;
    if base < 2 || base > 16 {
      mem[wstr] := 0;
      return;
    }
    ghost var t: seq<Byte> := [];
    DigestStart(value, base);
    while true
      invariant wstr == buf + |t| && Holds(mem, buf, t)
      invariant Digested(t, val, value, base)
      invariant min == if minimum > 0 then Max(minimum - |t|, 0) else minimum
      invariant forall i :: 0 <= i < mem.Length && !(buf <= i < wstr) ==> mem[i] == old(mem[i])
      decreases val
    {
      Quotient(val, base);
      DigestDigit(t, val, val / base, val % base, value, base);
      mem[wstr] := NUM[val % base];
      t := t + [NUM[val % base]];
      wstr := wstr + 1;
      if min > 0 {
        min := min - 1;
      }
      val := val / base;
      if val == 0 {
        break;
      }
    }
    while min > 0
      invariant wstr == buf + |t| && Holds(mem, buf, t)
      invariant AllDigits(t, base) && LittleValue(t, base) == value
      invariant |t| + Max(min, 0) == Max(minimum, DigitCount(value, base))
      invariant forall i :: 0 <= i < mem.Length && !(buf <= i < wstr) ==> mem[i] == old(mem[i])
    {
      DigestZero(t, base);
      mem[wstr] := ZERO;
      t := t + [ZERO];
      wstr := wstr + 1;
      min := min - 1;
    }
    mem[wstr] := 0;
    TurnRound(mem, buf, t, value, base, minimum);
  }

  /** The same over a 32-bit value. */
  method Uitoa(mem: array<Byte>, buf: nat, value: nat, base: int, minimum: int) returns (r: nat)
    requires value <= UINT_MAX && HasRoom(mem.Length, buf, value, base, minimum)
    modifies mem
    ensures r == buf
    ensures !(2 <= base <= 16) ==>
      mem[buf] == 0 && forall i :: 0 <= i < mem.Length && i != buf ==> mem[i] == old(mem[i])
    ensures 2 <= base <= 16 ==>
      var n := Max(minimum, DigitCount(value, base));
      && Prints(mem[buf..buf + n], value, base, minimum) && mem[buf + n] == 0
      && forall i :: 0 <= i < mem.Length && !(buf <= i <= buf + n) ==> mem[i] == old(mem[i])
  {
    hide LittleValue, DigitCount, Power, Prints, AllDigits;
    r := buf;
    var wstr, val: nat, min := buf, value, minimum;
    if base < 2 || base > 16 {
      mem[wstr] := 0;
      return;
    }
    ghost var t: seq<Byte> := [];
    DigestStart(value, base);
    while true
      invariant wstr == buf + |t| && Holds(mem, buf, t)
      invariant Digested(t, val, value, base)
      invariant min == if minimum > 0 then Max(minimum - |t|, 0) else minimum
      invariant forall i :: 0 <= i < mem.Length && !(buf <= i < wstr) ==> mem[i] == old(mem[i])
      decreases val
    {
      Quotient(val, base);
      DigestDigit(t, val, val / base, val % base, value, base);
      mem[wstr] := NUM[val % base];
      t := t + [NUM[val % base]];
      wstr := wstr + 1;
      if min > 0 {
        min := min - 1;
      }
      val := val / base;
      if val == 0 {
        break;
      }
    }
    while min > 0
      invariant wstr == buf + |t| && Holds(mem, buf, t)
      invariant AllDigits(t, base) && LittleValue(t, base) == value
      invariant |t| + Max(min, 0) == Max(minimum, DigitCount(value, base))
      invariant forall i :: 0 <= i < mem.Length && !(buf <= i < wstr) ==> mem[i] == old(mem[i])
    {
      DigestZero(t, base);
      mem[wstr] := ZERO;
      t := t + [ZERO];
      wstr := wstr + 1;
      min := min - 1;
    }
    mem[wstr] := 0;
    TurnRound(mem, buf, t, value, base, minimum);
  }
}
