/** One 8259A interrupt controller as its command and data ports show it.

    Registers are sets of line numbers 0..7; the bus sees them as bytes, so the
    file also fixes the byte of a set, the set of a byte, and proves the two
    inverse.  Behaviour follows the Intel 8259A datasheet, headings "Initialization
    Command Words", "Fully Nested Mode", "End of Interrupt (EOI)" and "Reading the
    8259A Status". */
module Pic8259 {
  import opened Basics

  type Line = i: int | 0 <= i < 8

  // Values the kernel writes to the two command and data ports.
  const ICW1_INIT_ICW4: Byte := 0x11
  const ICW4_8086: Byte := 0x01
  const CMD_END_OF_INTERRUPT: Byte := 0x20
  const CMD_READ_IRR: Byte := 0x0A
  const CMD_READ_ISR: Byte := 0x0B

  datatype Phase = Ready | ExpectIcw2 | ExpectIcw3 | ExpectIcw4

  datatype Chip = Chip(
    irr: set<Line>,      // interrupt requests
    isr: set<Line>,      // lines in service
    imr: set<Line>,      // masked lines
    base: Byte,          // vector of line 0
    cascade: Byte,       // last ICW3
    mode: Byte,          // last ICW4
    phase: Phase,        // initialisation word expected at the data port
    single: bool,        // ICW1 said: no ICW3
    wantsIcw4: bool,     // ICW1 said: ICW4 follows
    readIsr: bool        // which register the command port reads
  )

  ////////////////////////////////////////////////////////////////////////////
  // Registers as bytes
  ////////////////////////////////////////////////////////////////////////////

  function Weight(i: Line): (w: Byte)
    ensures w > 0
  {
    [1, 2, 4, 8, 16, 32, 64, 128][i]
  }

  predicate BitSet(v: int, i: nat)
    requires i < 16
  {
    v / (if i < 8 then Weight(i) else 256 * Weight(i - 8)) % 2 == 1
  }

  function Flag(s: set<Line>, i: Line): (f: int)
    ensures 0 <= f <= 1
  {
    if i in s then 1 else 0
  }

  function ByteOf(s: set<Line>): (v: Byte) {
    Flag(s, 0) + 2 * Flag(s, 1) + 4 * Flag(s, 2) + 8 * Flag(s, 3)
    + 16 * Flag(s, 4) + 32 * Flag(s, 5) + 64 * Flag(s, 6) + 128 * Flag(s, 7)
  }

  function LinesOf(v: Byte): set<Line> {
    set i: Line | BitSet(v, i)
  }

  /** Bit w of lo + w * b + 2 * w * hi is b when lo lies below w. */
  lemma {:induction false} BitAt(v: int, w: int, lo: int, b: int, hi: int)
    requires w > 0 && 0 <= lo < w && 0 <= b <= 1
    requires v == lo + w * (b + 2 * hi)
    ensures v / w % 2 == b
  {
    assert v / w == b + 2 * hi by {
      DivideExactly(v, w, b + 2 * hi, lo);
    }
  }

  lemma {:induction false} BitOfByte(s: set<Line>, i: Line)
    ensures BitSet(ByteOf(s), i) <==> i in s
  {
    var v := ByteOf(s);
    var f0, f1, f2, f3 := Flag(s, 0), Flag(s, 1), Flag(s, 2), Flag(s, 3);
    var f4, f5, f6, f7 := Flag(s, 4), Flag(s, 5), Flag(s, 6), Flag(s, 7);
    if i == 0 {
      BitAt(v, 1, 0, f0, f1 + 2 * f2 + 4 * f3 + 8 * f4 + 16 * f5 + 32 * f6 + 64 * f7);
    } else if i == 1 {
      BitAt(v, 2, f0, f1, f2 + 2 * f3 + 4 * f4 + 8 * f5 + 16 * f6 + 32 * f7);
    } else if i == 2 {
      BitAt(v, 4, f0 + 2 * f1, f2, f3 + 2 * f4 + 4 * f5 + 8 * f6 + 16 * f7);
    } else if i == 3 {
      BitAt(v, 8, f0 + 2 * f1 + 4 * f2, f3, f4 + 2 * f5 + 4 * f6 + 8 * f7);
    } else if i == 4 {
      BitAt(v, 16, f0 + 2 * f1 + 4 * f2 + 8 * f3, f4, f5 + 2 * f6 + 4 * f7);
    } else if i == 5 {
      BitAt(v, 32, f0 + 2 * f1 + 4 * f2 + 8 * f3 + 16 * f4, f5, f6 + 2 * f7);
    } else if i == 6 {
      BitAt(v, 64, f0 + 2 * f1 + 4 * f2 + 8 * f3 + 16 * f4 + 32 * f5, f6, f7);
    } else {
      BitAt(v, 128, f0 + 2 * f1 + 4 * f2 + 8 * f3 + 16 * f4 + 32 * f5 + 64 * f6, f7, 0);
    }
  }

  /** Bit i of the byte is line i, the lowest bit line 0. */
  lemma {:induction false} BitsAreLines(s: set<Line>)
    ensures var v := ByteOf(s);
      && (v % 2 == 1 <==> 0 in s) && (v / 2 % 2 == 1 <==> 1 in s)
      && (v / 4 % 2 == 1 <==> 2 in s) && (v / 8 % 2 == 1 <==> 3 in s)
      && (v / 16 % 2 == 1 <==> 4 in s) && (v / 32 % 2 == 1 <==> 5 in s)
      && (v / 64 % 2 == 1 <==> 6 in s) && (v / 128 % 2 == 1 <==> 7 in s)
  {
    hide ByteOf;
    BitOfByte(s, 0);
    BitOfByte(s, 1);
    BitOfByte(s, 2);
    BitOfByte(s, 3);
    BitOfByte(s, 4);
    BitOfByte(s, 5);
    BitOfByte(s, 6);
    BitOfByte(s, 7);
  }

  /** A mask that is read from the data port and written back is the same mask. */
  lemma {:induction false} MaskSurvivesTheBus(s: set<Line>)
    ensures LinesOf(ByteOf(s)) == s
  {
    forall i: Line ensures i in LinesOf(ByteOf(s)) <==> i in s {
      BitOfByte(s, i);
    }
  }

  /** The 16-bit word joining both status bytes tests line 7 of each chip at bits 7 and 15. */
  lemma {:induction false} StatusWordBits(lo: set<Line>, hi: set<Line>)
    ensures BitSet(ByteOf(lo) + 256 * ByteOf(hi), 7) <==> 7 in lo
    ensures BitSet(ByteOf(lo) + 256 * ByteOf(hi), 15) <==> 7 in hi
    ensures (ByteOf(lo) + 256 * ByteOf(hi)) / 128 % 2 == 1 <==> 7 in lo
    ensures (ByteOf(lo) + 256 * ByteOf(hi)) / 32768 % 2 == 1 <==> 7 in hi
  {
    hide ByteOf;
    BitOfByte(lo, 7);
    BitOfByte(hi, 7);
    JoinedBits(ByteOf(lo), ByteOf(hi));
  }

  lemma {:induction false} JoinedBits(a: int, b: int)
    requires 0 <= a < 256 && 0 <= b < 256
    ensures (a + 256 * b) / 128 % 2 == a / 128 % 2
    ensures (a + 256 * b) / 32768 % 2 == b / 128 % 2
  {
    DivideExactly(a + 256 * b, 128, a / 128 + 2 * b, a % 128);
    DivideExactly(a + 256 * b, 32768, b / 128, a + 256 * (b % 128));
  }

  ////////////////////////////////////////////////////////////////////////////
  // Priority
  ////////////////////////////////////////////////////////////////////////////

  /** The priority resolver: the lowest-numbered line of the set, 8 if there is none. */
  function Highest(s: set<Line>): (h: nat)
    ensures h <= 8
    ensures h == 8 <==> s == {}
    ensures h < 8 ==> h in s && forall j :: j in s ==> h <= j
  {
    if 0 in s then 0 else if 1 in s then 1 else if 2 in s then 2 else if 3 in s then 3
    else if 4 in s then 4 else if 5 in s then 5 else if 6 in s then 6 else if 7 in s then 7
    else assert s == {} by { forall j: Line ensures j !in s { } } 8
  }

  /** Requests that may interrupt: unmasked and above every line in service. */
  function Unblocked(requests: set<Line>, imr: set<Line>, isr: set<Line>): set<Line> {
    set i | i in requests && i !in imr && forall j :: j in isr ==> i < j
  }

  /** The INT output of a chip whose requests are its own IRR. */
  predicate Int(c: Chip) {
    Unblocked(c.irr, c.imr, c.isr) != {}
  }

  function EndOfInterrupt(isr: set<Line>): set<Line> {
    isr - (if Highest(isr) < 8 then {Highest(isr)} else {})
  }

  ////////////////////////////////////////////////////////////////////////////
  // Ports
  ////////////////////////////////////////////////////////////////////////////

  /** A write to the command port (A0 = 0): ICW1, OCW3 or OCW2 by bits 4 and 3. */
  function WriteCommand(c: Chip, v: Byte): Chip {
    if BitSet(v, 4) then
      c.(irr := {}, imr := {}, phase := ExpectIcw2, single := BitSet(v, 1),
         wantsIcw4 := BitSet(v, 0), mode := if BitSet(v, 0) then c.mode else 0, readIsr := false)
    else if BitSet(v, 3) then
      if v % 4 == 2 then c.(readIsr := false)
      else if v % 4 == 3 then c.(readIsr := true)
      else c
    else if v / 32 == 1 then c.(isr := EndOfInterrupt(c.isr))
    else if v / 32 == 3 then c.(isr := c.isr - {v % 8})
    else c
  }

  /** A write to the data port (A0 = 1): the initialisation word expected, else the mask. */
  function WriteData(c: Chip, v: Byte): Chip {
    match c.phase
    case ExpectIcw2 =>
      c.(base := v - v % 8,
         phase := if !c.single then ExpectIcw3 else if c.wantsIcw4 then ExpectIcw4 else Ready)
    case ExpectIcw3 => c.(cascade := v, phase := if c.wantsIcw4 then ExpectIcw4 else Ready)
    case ExpectIcw4 => c.(mode := v, phase := Ready)
    case Ready => c.(imr := LinesOf(v))
  }

  function ReadCommand(c: Chip): Byte {
    ByteOf(if c.readIsr then c.isr else c.irr)
  }

  function ReadData(c: Chip): Byte {
    ByteOf(c.imr)
  }

  /** What the two command words the dispatcher uses do to a chip. */
  lemma {:induction false} CommandEffects(c: Chip)
    ensures WriteCommand(c, CMD_END_OF_INTERRUPT) == c.(isr := EndOfInterrupt(c.isr))
    ensures WriteCommand(c, CMD_READ_ISR) == c.(readIsr := true)
    ensures WriteCommand(c, CMD_READ_IRR) == c.(readIsr := false)
  {
    hide EndOfInterrupt;
    assert !BitSet(CMD_END_OF_INTERRUPT, 4) && !BitSet(CMD_END_OF_INTERRUPT, 3);
    assert !BitSet(CMD_READ_ISR, 4) && BitSet(CMD_READ_ISR, 3);
    assert !BitSet(CMD_READ_IRR, 4) && BitSet(CMD_READ_IRR, 3);
  }
}
