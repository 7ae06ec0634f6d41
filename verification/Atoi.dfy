/** atoi, and the round trips through the printers. */
module Atoi {
  import opened Basics
  import opened CString
  import opened Digits
  import opened NumberText

  const WORD := 0x1_0000_0000

  /** char is signed. */
  function SignedChar(c: Byte): int {
    if c < 128 then c else c - 256
  }

  function ToInt32(w: int): int
    requires 0 <= w < WORD
  {
    if w <= INT_MAX then w else w - WORD
  }

  /** A string read from the left as decimal, every byte less '0' taken as its digit. */
  function Horner(t: seq<Byte>): int {
    if t == [] then 0 else Horner(t[..|t| - 1]) * 10 + (SignedChar(t[|t| - 1]) - 48)
  }

  lemma {:induction false} HornerPrepend(c: Byte, t: seq<Byte>)
    ensures Horner([c] + t) == (SignedChar(c) - 48) * Power(10, |t|) + Horner(t)
  {
    if t == [] {
      assert [c] + t == [c] && [c][..0] == [];
    } else {
      var init := t[..|t| - 1];
      assert ([c] + t)[..|t|] == [c] + init;
      HornerPrepend(c, init);
      Regroup(SignedChar(c) - 48, Power(10, |init|), Horner(init), 10);
    }
  }

  /** Every byte counts, digit or not: it adds its code as a signed char less 48. */
  lemma {:induction false} OneMoreCharacter(t: seq<Byte>, c: Byte)
    ensures c < 128 ==> Horner(t + [c]) == 10 * Horner(t) + c - 48
    ensures c >= 128 ==> Horner(t + [c]) == 10 * Horner(t) + c - 304
  {
    assert (t + [c])[..|t|] == t;
  }

  ////////////////////////////////////////////////////////////////////////////
  // Wrapping arithmetic
  ////////////////////////////////////////////////////////////////////////////

  lemma {:induction false} SameWord(x: int, y: int, k: int)
    requires x == y + k * WORD
    ensures x % WORD == y % WORD
  {
  }

  /** A product of wrapped factors wraps like the product. */
  lemma {:induction false} WrappedProduct(a: int, b: int)
    ensures (a % WORD) * (b % WORD) % WORD == a * b % WORD
  {
    var p, q, x, y := a / WORD, b / WORD, a % WORD, b % WORD;
    Expand(p, q, x, y, WORD);
    SameWord(a * b, x * y, p * q * WORD + p * y + q * x);
  }

  lemma {:induction false} Expand(p: int, q: int, x: int, y: int, w: int)
    ensures (p * w + x) * (q * w + y) == x * y + (p * q * w + p * y + q * x) * w
  {
  }

  /** One turn of the loop, wrapped at every operation, keeps the wrapped sum. */
  lemma {:induction false} WrappedStep(high: int, digit: int, power: int)
    ensures (high % WORD + (digit % WORD) * (power % WORD) % WORD) % WORD == (digit * power + high) % WORD
  {
    WrappedProduct(digit, power);
    WrappedSum(high, digit * power);
  }

  lemma {:induction false} WrappedSum(a: int, b: int)
    ensures (a % WORD + b % WORD) % WORD == (b + a) % WORD
  {
  }

  ////////////////////////////////////////////////////////////////////////////
  // atoi
  ////////////////////////////////////////////////////////////////////////////

  /** The left-to-right value modulo 2^32, whatever the string's length and although the
      weight itself wraps. */
  method Atoi(mem: array<Byte>, str: nat) returns (r: int)
    requires IsString(mem[..], str) && mem.Length <= WORD
    ensures r == ToInt32(Horner(mem[str..str + StrLen(mem[..], str)]) % WORD)
  {
    hide Horner, Power, StrLen;
    var len := Strlen(mem, str);
    ghost var text := mem[str..str + len];
    var out, pow := 0, 1;
    var i := len;
    PowerZero();
    assert text[len..] == [];
    while i > 0
      invariant 0 <= i <= len
      invariant pow == Power(10, len - i) % WORD
      invariant out == Horner(text[i..]) % WORD
    {
      var c := mem[str + i - 1];
      assert text[i - 1..] == [c] + text[i..];
      HornerPrepend(c, text[i..]);
      WrappedStep(Horner(text[i..]), SignedChar(c) - 48, Power(10, len - i));
      out := (out + ((SignedChar(c) - 48) % WORD) * pow % WORD) % WORD;
      NextPower(len - i);
      pow := pow * 10 % WORD;
      i := i - 1;
    }
    assert text[0..] == text;
    r := ToInt32(out);
  }

  lemma {:induction false} PowerZero()
    ensures Power(10, 0) == 1 && Horner([]) == 0
  {
  }

  lemma {:induction false} NextPower(n: nat)
    ensures (Power(10, n) % WORD) * 10 % WORD == Power(10, n + 1) % WORD
  {
    WrappedProduct(Power(10, n), 10);
    assert 10 % WORD == 10;
  }

  ////////////////////////////////////////////////////////////////////////////
  // Round trips
  ////////////////////////////////////////////////////////////////////////////

  lemma {:induction false} DigitsReadTheSame(t: seq<Byte>)
    requires AllDigits(t, 10)
    ensures Horner(t) == Value(t, 10)
  {
    if t == [] {
    } else {
      assert IsDigit(t[|t| - 1], 10);
      DigitsReadTheSame(t[..|t| - 1]);
    }
  }

  /** atoi of any printed decimal is the value as a 32-bit word, whatever the padding. */
  lemma {:induction false} PrintedDecimalParses(t: seq<Byte>, val: nat, min: int)
    requires Prints(t, val, 10, min)
    ensures ToInt32(Horner(t) % WORD) == ToInt32(val % WORD)
    ensures ToInt32(Horner(t) % WORD) % WORD == val % WORD
  {
    DigitsReadTheSame(t);
  }

  /** atoi(uitoa(v, 10, min)) is v as a 32-bit word. */
  method PrintAndParse(mem: array<Byte>, buf: nat, v: nat, min: int) returns (r: int)
    requires v <= UINT_MAX && HasRoom(mem.Length, buf, v, 10, min) && mem.Length <= WORD
    modifies mem
    ensures r == ToInt32(v) && r % WORD == v
  {
    var p := Uitoa(mem, buf, v, 10, min);
    r := ParsePrinted(mem, buf, v, min);
  }

  /** atoi(u64toa(v, 10, min)) is v modulo 2^32. */
  method PrintAndParse64(mem: array<Byte>, buf: nat, v: nat, min: int) returns (r: int)
    requires v <= ULLONG_MAX && HasRoom(mem.Length, buf, v, 10, min) && mem.Length <= WORD
    modifies mem
    ensures r == ToInt32(v % WORD) && r % WORD == v % WORD
  {
    var p := U64toa(mem, buf, v, 10, min);
    r := ParsePrinted(mem, buf, v, min);
  }

  lemma {:induction false} NoNulAmongDigits(t: seq<Byte>, base: nat)
    requires AllDigits(t, base)
    ensures forall i :: 0 <= i < |t| ==> t[i] != 0
  {
  }

  method ParsePrinted(mem: array<Byte>, buf: nat, v: nat, min: int) returns (r: int)
    requires mem.Length <= WORD
    requires var n := Max(min, DigitCount(v, 10));
      buf + n < mem.Length && Prints(mem[buf..buf + n], v, 10, min) && mem[buf + n] == 0
    ensures r == ToInt32(v % WORD) && r % WORD == v % WORD
  {
    ghost var n := Max(min, DigitCount(v, 10));
    ghost var t := mem[buf..buf + n];
    NoNulAmongDigits(t, 10);
    forall i | buf <= i < buf + n ensures mem[i] != 0 {
      assert mem[i] == t[i - buf];
    }
    StrLenIs(mem[..], buf, n);
    r := Atoi(mem, buf);
    PrintedDecimalParses(t, v, min);
  }
}
