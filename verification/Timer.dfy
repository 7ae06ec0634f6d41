/** The 8254 timer: the tick handler, the wait loop that sleeps between interrupts, and the
    divisor bytes. */
module Timer {

  const TWO_TO_64 := 0x1_0000_0000_0000_0000
  const INPUT_HZ := 1193182

  function Sum(s: seq<nat>): nat {
    if s == [] then 0 else s[0] + Sum(s[1..])
  }

  function Divisor(hz: nat): nat
    requires hz > 0
  {
    INPUT_HZ / hz
  }

  class Pit {
    var ticks: nat
    var seconds: nat

    /** Whole seconds are thousands of ticks. */
    ghost predicate Valid()
      reads this
    {
      seconds == ticks / 1000
    }

    constructor ()
      ensures Valid() && ticks == 0
    {
      ticks, seconds := 0, 0;
    }

    /** PIT_8254_Handler */
    method Handler()
      requires Valid() && ticks + 1 < TWO_TO_64
      modifies this
      ensures Valid() && ticks == old(ticks) + 1 && seconds == ticks / 1000
    {
      ticks := ticks + 1;
      if ticks % 1000 == 0 {
        seconds := seconds + 1;
      }
    }

    method Handlers(n: nat)
      requires Valid() && ticks + n < TWO_TO_64
      modifies this
      ensures Valid() && ticks == old(ticks) + n
    {
      for i := 0 to n
        invariant Valid() && ticks == old(ticks) + i
      {
        Handler();
      }
    }

    /** PIT_8254_Wait.  `wakes[i]` is how many IRQ0 handlers ran while hlt number i slept;
        when the list is used up the wait has not ended yet.  It ends exactly when at least
        n handlers have run, and never on less. */
    method Wait(n: nat, wakes: seq<nat>) returns (ended: bool, ghost ran: nat)
      requires Valid() && ticks + n + Sum(wakes) < TWO_TO_64
      modifies this
      ensures Valid() && ticks == old(ticks) + ran && ran <= Sum(wakes)
      ensures ended <==> ran >= n
      ensures ended <==> Sum(wakes) >= n
      ensures !ended ==> ran == Sum(wakes)
    {
      var eticks := ticks + n;
      ran := 0;
      ended := true;
      var rest := wakes;
      while eticks > ticks
        invariant Valid() && ticks == old(ticks) + ran && ran + Sum(rest) == Sum(wakes)
        invariant ticks + Sum(rest) < TWO_TO_64 && eticks == old(ticks) + n
        decreases |rest|
      {
        if rest == [] {
          ended := false;
          return;
        }
        Handlers(rest[0]);
        ran := ran + rest[0];
        rest := rest[1..];
      }
    }

    /** PIT_8254_Phase: the two bytes sent to channel 0 rebuild the divisor exactly from 19 Hz up. */
    static method Phase(hz: nat) returns (low: nat, high: nat)
      requires 0 < hz < 0x1_0000_0000
      ensures low < 256 && high < 256
      ensures low + 256 * high == Divisor(hz) <==> hz >= 19
      ensures var d := low + 256 * high;
        hz >= 19 ==> d * hz <= 1193182 < (d + 1) * hz
    {
      DivisorIs(hz);
      hide Divisor;
      var divisor := Divisor(hz);
      low := divisor % 256;
      high := divisor / 256 % 256;
      DivisorFits(hz);
      TwoBytes(divisor);
    }
  }

  lemma {:induction false} DivisorIs(hz: nat)
    requires hz > 0
    ensures Divisor(hz) * hz <= 1193182 < (Divisor(hz) + 1) * hz
  {
    var d := Divisor(hz);
    assert (d + 1) * hz == d * hz + hz;
    assert d * hz == hz * d == 1193182 - 1193182 % hz;
  }

  lemma {:induction false} TwoBytes(d: nat)
    ensures d % 256 + 256 * (d / 256 % 256) == d <==> d < 0x1_0000
  {
  }

  lemma {:induction false} DivisorFits(hz: nat)
    requires hz > 0
    ensures Divisor(hz) < 0x1_0000 <==> hz >= 19
  {
  }
}
