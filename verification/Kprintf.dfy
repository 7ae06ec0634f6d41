/** kprintf: the format interpreter over the number printer and the terminal. */
module Kprintf {
  import opened Basics
  import opened CString
  import opened Digits
  import opened NumberText
  import opened SignedText
  import opened Terminal

  const PERCENT: Byte := 37
  const STRING: Byte := 115   // 's'

  /** One machine word of the argument list; a directive takes it for an int or a char pointer. */
  type Arg = Int32

  /** The word as a pointer: zero is null. */
  function Pointer(arg: Arg): Option<nat> {
    if arg == 0 then None else Some(arg % WORDS)
  }

  ////////////////////////////////////////////////////////////////////////////
  // The text of a number
  ////////////////////////////////////////////////////////////////////////////

  /** The shortest text of a value. */
  function Shortest(val: nat, base: nat): (t: seq<Byte>)
    requires 2 <= base <= 16
    decreases val
  {
    Quotient(val, base);
    if val < base then [NUM[val]] else Shortest(val / base, base) + [NUM[val % base]]
  }

  lemma {:induction false} OneDigitPrints(val: nat, base: nat)
    requires 2 <= base <= 16 && val < base
    ensures Prints([NUM[val]], val, base, 0)
  {
    NumDigit(val, base);
    assert [NUM[val]][..0] == [];
  }

  lemma {:induction false} ValueAppend(t: seq<Byte>, c: Byte, base: nat)
    ensures Value(t + [c], base) == Value(t, base) * base + Digit(c)
  {
    assert (t + [c])[..|t|] == t;
  }

  lemma {:induction false} CountOfQuotient(val: nat, base: nat)
    requires base >= 2 && val >= base
    ensures DigitCount(val, base) == 1 + DigitCount(val / base, base)
  {
  }

  lemma {:induction false} DigitAppended(t: seq<Byte>, val: nat, base: nat)
    requires 2 <= base <= 16 && val >= base && Prints(t, val / base, base, 0)
    ensures val % base < base && Prints(t + [NUM[val % base]], val, base, 0)
  {
    hide Value, DigitCount, Digit;
    Quotient(val, base);
    var q: nat, r: nat := val / base, val % base;
    NumDigit(r, base);
    ValueAppend(t, NUM[r], base);
    CountOfQuotient(val, base);
    assert q * base == base * q;
  }

  lemma {:induction false} ShortestPrints(val: nat, base: nat)
    requires 2 <= base <= 16
    ensures Prints(Shortest(val, base), val, base, 0)
    decreases val
  {
    hide Prints;
    Quotient(val, base);
    if val < base {
      OneDigitPrints(val, base);
    } else {
      ShortestPrints(val / base, base);
      DigitAppended(Shortest(val / base, base), val, base);
    }
  }

  function ItoaOf(val: Int32, base: int): seq<Byte> {
    Sign(val, base) + Shortest(Magnitude(val, base), Divisor(val, base))
  }

  /** itoa's contract leaves one text. */
  lemma {:induction false} ItoaWritesItoaOf(text: seq<Byte>, val: Int32, base: int)
    ensures ItoaText(text, val, base) <==> text == ItoaOf(val, base)
  {
    hide Prints, Magnitude;
    var sign := Sign(val, base);
    ShortestPrints(Magnitude(val, base), Divisor(val, base));
    assert ItoaOf(val, base)[|sign|..] == Shortest(Magnitude(val, base), Divisor(val, base));
    if ItoaText(text, val, base) {
      PrintsOneText(text[|sign|..], Shortest(Magnitude(val, base), Divisor(val, base)),
                    Magnitude(val, base), Divisor(val, base), 0);
      assert text == sign + text[|sign|..];
    }
  }

  /** The directive's text fits the 20-byte buffer. */
  predicate Printable(c: Byte, v: Int32) {
    (c as int == BASE_D && v != INT_MIN) || (c as int == BASE_U && v >= 0) || c as int == BASE_X
  }

  lemma {:induction false} BufferHasRoom(c: Byte, v: Int32)
    requires Printable(c, v)
    ensures |Sign(v, c)| + DigitCount(Magnitude(v, c), Divisor(v, c)) < KPRINTF_BUFFER
  {
    var text := ItoaOf(v, c);
    ItoaWritesItoaOf(text, v, c);
    FitsKprintfBuffer(text, v, c);
    ShortestPrints(Magnitude(v, c), Divisor(v, c));
  }

  ////////////////////////////////////////////////////////////////////////////
  // What a format says
  ////////////////////////////////////////////////////////////////////////////

  predicate IsNumber(c: Byte) {
    c as int == BASE_D || c as int == BASE_U || c as int == BASE_X
  }

  /** A number's text has to fit the buffer, and what is taken for a string has to be one. */
  ghost predicate Takes(m: Memory, c: Byte, arg: Arg) {
    if IsNumber(c) then Printable(c, arg)
    else c == STRING && arg != 0 ==> IsString(m, Pointer(arg).value)
  }

  /** Every directive finds its argument; a percent sign at the end takes none. */
  ghost predicate Matches(m: Memory, format: seq<Byte>, args: seq<Arg>)
    decreases |format|
  {
    if format == [] then true
    else if format[0] != PERCENT then Matches(m, format[1..], args)
    else if |format| == 1 then true
    else args != [] && Takes(m, format[1], args[0]) && Matches(m, format[2..], args[1..])
  }

  const NULL_TEXT: seq<Byte> := [40, 110, 117, 108, 108, 41]   // "(null)"

  /** A number, a string or its stand-in, or for any other directive the word as a character. */
  ghost function ArgText(m: Memory, c: Byte, arg: Arg): seq<Byte>
    requires Takes(m, c, arg)
  {
    if IsNumber(c) then ItoaOf(arg, c)
    else if c == STRING then
      match Pointer(arg)
      case None => NULL_TEXT
      case Some(p) => m[p..p + StrLen(m, p)]
    else [arg % 256]
  }

  ghost function Expand(m: Memory, format: seq<Byte>, args: seq<Arg>): seq<Byte>
    requires Matches(m, format, args)
    decreases |format|
  {
    if format == [] then []
    else if format[0] != PERCENT then [format[0]] + Expand(m, format[1..], args)
    else if |format| == 1 then []
    else ArgText(m, format[1], args[0]) + Expand(m, format[2..], args[1..])
  }

  /** A format without a percent sign (37) is printed as it is, and so is what comes before one. */
  lemma {:induction false} PlainFirst(m: Memory, plain: seq<Byte>, rest: seq<Byte>, args: seq<Arg>)
    requires forall i :: 0 <= i < |plain| ==> plain[i] != 37
    ensures Matches(m, plain + rest, args) <==> Matches(m, rest, args)
    ensures Matches(m, rest, args) ==> Expand(m, plain + rest, args) == plain + Expand(m, rest, args)
    decreases |plain|
  {
    hide Matches, Expand;
    if plain == [] {
      assert plain + rest == rest;
    } else {
      var format := plain + rest;
      assert format[0] == plain[0] && format[1..] == plain[1..] + rest;
      OnePlain(m, format, args);
      PlainFirst(m, plain[1..], rest, args);
      assert [plain[0]] + plain[1..] == plain;
    }
  }

  lemma {:induction false} OnePlain(m: Memory, format: seq<Byte>, args: seq<Arg>)
    requires format != [] && format[0] != 37
    ensures Matches(m, format, args) <==> Matches(m, format[1..], args)
    ensures Matches(m, format, args) ==> Expand(m, format, args) == [format[0]] + Expand(m, format[1..], args)
  {
  }

  /** A percent sign at the end prints nothing and takes no argument. */
  lemma {:induction false} PercentLast(m: Memory, args: seq<Arg>)
    ensures Matches(m, [37], args) && Expand(m, [37], args) == []
  {
  }

  /** The text t a directive c is printed as, given the word it takes: 'd' (100) the canonical
      decimal of the word, 'u' (117) its shortest decimal, 'x' (120) the shortest hexadecimal of
      it sign-extended to 64 bits, 's' (115) the string at that address or "(null)", and any
      other the word's low byte. */
  ghost predicate IsText(m: Memory, c: Byte, arg: Arg, t: seq<Byte>) {
    && (c == 100 ==> Canonical(t) && SignedValue(t) == arg)
    && (c == 117 ==> arg >= 0 && Prints(t, arg, 10, 0))
    && (c == 120 ==> Prints(t, arg % 0x1_0000_0000_0000_0000, 16, 0))
    && (c == 115 && arg == 0 ==> t == [40, 110, 117, 108, 108, 41])
    && (c == 115 && arg != 0 ==>
          var p := arg % 0x1_0000_0000;
          IsString(m, p) && t == m[p..p + StrLen(m, p)])
    && (c != 100 && c != 117 && c != 120 && c != 115 ==> t == [arg % 256])
  }

  /** A directive and its word are printed as that text, and the rest of the format after it
      with the words left. */
  lemma {:induction false} DirectiveText(m: Memory, c: Byte, arg: Arg, rest: seq<Byte>, args: seq<Arg>)
    returns (t: seq<Byte>)
    requires Matches(m, [37, c] + rest, [arg] + args)
    ensures IsText(m, c, arg, t) && Matches(m, rest, args)
    ensures Expand(m, [37, c] + rest, [arg] + args) == t + Expand(m, rest, args)
  {
    hide Prints, Canonical, SignedValue, ItoaOf;
    t := ArgText(m, c, arg);
    assert ([37, c] + rest)[2..] == rest && ([arg] + args)[1..] == args;
    if IsNumber(c) {
      ItoaWritesItoaOf(t, arg, c);
      if c == 100 {
        DecimalIsCanonical(t, arg, c);
      } else if c == 117 {
        OtherText(t, arg, c);
      } else {
        HexadecimalText(t, arg, c);
      }
    }
  }

  /** Each directive uses up exactly one argument: how many a format has used. */
  function Directives(format: seq<Byte>): nat
    decreases |format|
  {
    if format == [] then 0
    else if format[0] != PERCENT then Directives(format[1..])
    else if |format| == 1 then 0
    else 1 + Directives(format[2..])
  }

  /** The expansion depends on as many arguments as there are directives, and on no more. */
  lemma {:induction false} OneArgumentEach(m: Memory, format: seq<Byte>, args: seq<Arg>, more: seq<Arg>)
    requires Matches(m, format, args)
    ensures Directives(format) <= |args|
    ensures Matches(m, format, args[..Directives(format)] + more)
    ensures Expand(m, format, args[..Directives(format)] + more) == Expand(m, format, args)
    decreases |format|
  {
    var n := Directives(format);
    if format == [] {
    } else if format[0] != PERCENT {
      OneArgumentEach(m, format[1..], args, more);
    } else if |format| > 1 {
      OneArgumentEach(m, format[2..], args[1..], more);
      assert (args[..n] + more)[0] == args[0];
      assert (args[..n] + more)[1..] == args[1..][..n - 1] + more;
    }
  }

  ////////////////////////////////////////////////////////////////////////////
  // The code
  ////////////////////////////////////////////////////////////////////////////

  /** One itoa into the local buffer and one Terminal_Print of it. */
  method PrintNumber(term: Terminal, c: Byte, v: Int32)
    requires term.Valid() && IsNumber(c) && Printable(c, v)
    modifies term, term.buffer
    ensures term.Valid() && term.color == old(term.color)
    ensures term.View() == Print(old(term.View()), ItoaOf(v, c), term.color)
  {
    hide DigitCount, Print, StrLen, ItoaOf, ItoaText;
    var buf := new Byte[KPRINTF_BUFFER];
    BufferHasRoom(c, v);
    var end := Itoa(buf, v, 0, c);
    ItoaWritesItoaOf(buf[0..end], v, c);
    NumberHasNoNul(v, c);
    StrLenIs(buf[..], 0, end);
    term.PrintString(buf, 0);
  }

  lemma {:induction false} NumberHasNoNul(v: Int32, c: Byte)
    ensures forall i :: 0 <= i < |ItoaOf(v, c)| ==> ItoaOf(v, c)[i] != 0
  {
    ShortestPrints(Magnitude(v, c), Divisor(v, c));
  }

  method PrintArgString(term: Terminal, mem: array<Byte>, arg: Arg)
    requires term.Valid() && mem as object != term.buffer as object
    requires Takes(mem[..], STRING, arg)
    modifies term, term.buffer
    ensures term.Valid() && term.color == old(term.color)
    ensures term.View() == Print(old(term.View()), ArgText(old(mem[..]), STRING, arg), term.color)
  {
    hide Print, StrLen;
    if arg == 0 {
      var stand := new Byte[7][40, 110, 117, 108, 108, 41, 0];
      StrLenIs(stand[..], 0, 6);
      assert stand[0..6] == NULL_TEXT;
      term.PrintString(stand, 0);
    } else {
      var p := arg % WORDS;
      assert mem[p..p + StrLen(mem[..], p)] == mem[..][p..p + StrLen(mem[..], p)];
      term.PrintString(mem, p);
    }
  }

  /** Terminal_Putch, in the terms of a piece of text. */
  method PrintChar(term: Terminal, c: Byte)
    requires term.Valid()
    modifies term, term.buffer
    ensures term.Valid() && term.color == old(term.color)
    ensures term.View() == Print(old(term.View()), [c], term.color)
  {
    hide Put;
    term.Putch(c);
  }

  /** One directive. */
  method PrintDirective(term: Terminal, mem: array<Byte>, c: Byte, arg: Arg)
    requires term.Valid() && mem as object != term.buffer as object
    requires Takes(mem[..], c, arg)
    modifies term, term.buffer
    ensures term.Valid() && term.color == old(term.color)
    ensures term.View() == Print(old(term.View()), ArgText(old(mem[..]), c, arg), term.color)
  {
    hide Print, StrLen, ItoaOf, Printable;
    if IsNumber(c) {
      PrintNumber(term, c, arg);
    } else if c == STRING {
      PrintArgString(term, mem, arg);
    } else {
      PrintChar(term, arg % 256);
    }
  }

  /** What is left to do: printing the rest of the format ends at the goal. */
  ghost predicate Heading(m: Memory, s: Screen, color: Byte, rest: seq<Byte>, left: seq<Arg>, goal: Screen) {
    && Whole(s) && Matches(m, rest, left)
    && Print(s, Expand(m, rest, left), color) == goal
  }

  /** An ordinary character is printed as itself. */
  lemma {:induction false} OrdinaryFirst(m: Memory, s: Screen, color: Byte,
                                         rest: seq<Byte>, left: seq<Arg>, goal: Screen)
    requires Heading(m, s, color, rest, left, goal) && rest != [] && rest[0] != PERCENT
    ensures Heading(m, Print(s, [rest[0]], color), color, rest[1..], left, goal)
  {
  }

  /** A directive is printed as its argument's text. */
  lemma {:induction false} DirectiveFirst(m: Memory, s: Screen, color: Byte,
                                          rest: seq<Byte>, left: seq<Arg>, goal: Screen)
    requires Heading(m, s, color, rest, left, goal) && |rest| > 1 && rest[0] == PERCENT
    ensures left != [] && Takes(m, rest[1], left[0])
    ensures var piece := ArgText(m, rest[1], left[0]);
      Heading(m, Print(s, piece, color), color, rest[2..], left[1..], goal)
  {
    hide Print, Takes, ArgText;
    PrintAppend(s, ArgText(m, rest[1], left[0]), Expand(m, rest[2..], left[1..]), color);
  }

  /** kprintf sends the terminal exactly the expansion of the format and its arguments. */
  method Kprintf(term: Terminal, mem: array<Byte>, start: nat, args: seq<Arg>)
    requires term.Valid() && mem as object != term.buffer as object
    requires IsString(mem[..], start)
    requires Matches(mem[..], mem[start..start + StrLen(mem[..], start)], args)
    modifies term, term.buffer
    ensures term.Valid() && term.color == old(term.color)
    ensures term.View() ==
      Print(old(term.View()),
            old(Expand(mem[..], mem[start..start + StrLen(mem[..], start)], args)), term.color)
  {
    hide Print, StrLen, Matches, Expand, ArgText, Takes;
    ghost var m := mem[..];
    ghost var len := StrLen(m, start);
    ghost var text := mem[start..start + len];
    ghost var goal := Print(term.View(), Expand(m, text, args), term.color);
    var format, arg := start, 0;
    assert text[0..] == text && args[0..] == args;
    while mem[format] != 0
      invariant start <= format <= start + len && 0 <= arg <= |args|
      invariant mem[..] == m && term.Valid() && term.color == old(term.color)
      invariant Heading(m, term.View(), term.color, text[format - start..], args[arg..], goal)
      decreases start + len - format
    {
      ghost var rest, left := text[format - start..], args[arg..];
      var c := mem[format];
      format := format + 1;
      if c != PERCENT {
        OrdinaryFirst(m, term.View(), term.color, rest, left, goal);
        PrintChar(term, c);
        assert rest[1..] == text[format - start..];
      } else {
        c := mem[format];
        if c == 0 {
          StopsAtPercent(m, term.View(), term.color, rest, left, goal);
          return;
        }
        format := format + 1;
        DirectiveFirst(m, term.View(), term.color, rest, left, goal);
        PrintDirective(term, mem, c, args[arg]);
        arg := arg + 1;
        assert rest[2..] == text[format - start..] && left[1..] == args[arg..];
      }
    }
    StopsAtEnd(m, term.View(), term.color, text[format - start..], args[arg..], goal);
  }

  lemma {:induction false} StopsAtEnd(m: Memory, s: Screen, color: Byte,
                                      rest: seq<Byte>, left: seq<Arg>, goal: Screen)
    requires Heading(m, s, color, rest, left, goal) && rest == []
    ensures s == goal
  {
  }

  lemma {:induction false} StopsAtPercent(m: Memory, s: Screen, color: Byte,
                                          rest: seq<Byte>, left: seq<Arg>, goal: Screen)
    requires Heading(m, s, color, rest, left, goal) && rest == [PERCENT]
    ensures s == goal
  {
  }
}
