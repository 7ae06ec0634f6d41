/** The one way nested service goes wrong: an acknowledge that finds no request while a
    genuine IRQ7 is in service.  The dispatcher then takes the spurious frame for a
    genuine one. */
module SpuriousClash {
  import opened Basics
  import opened Pic8259
  import opened InterruptMachine
  import opened NestedService

  /** The acknowledge delivers a spurious IRQ7 and leaves line 7 in service. */
  lemma {:induction false} ClashEnters(m: Machine)
    requires Inv(m) && Enabled(m, IntaMaster) && Clash(m, IntaMaster)
    ensures var e := Next(m, IntaMaster);
      && AtStage(e, Entered) && Top(e).vector == IRQ7 && !Top(e).genuine
      && e.master == m.master && |e.routines| == NUM_INTERRUPTS
    ensures m.master.isr == MasterHeld(m.frames) && 7 in m.master.isr
  {
    hide MasterHeld, SlaveHeld, Nested, MasterChoice;
  }

  /** With line 7 in service the check lets any IRQ7 pass. */
  lemma {:induction false} CheckLetsPass(e: Machine)
    requires AtStage(e, Entered) && Top(e).vector == IRQ7 && 7 in e.master.isr && |e.routines| == NUM_INTERRUPTS
    ensures Enabled(e, Check)
    ensures var h := Next(e, Check);
      && AtStage(h, Handling) && Top(h).vector == IRQ7 && Top(h).genuine == Top(e).genuine
      && h.master.isr == e.master.isr
  {
    hide WriteCommand, BitSet;
    CommandEffects(e.master);
    StatusWordBits(e.master.isr, e.slave.isr);
  }

  /** The end of its service retires whatever line is highest. */
  lemma {:induction false} EndRetiresHighest(h: Machine)
    requires AtStage(h, Handling) && Top(h).vector == IRQ7 && h.master.isr != {}
    ensures var due := Next(h, HandlerDone);
      Enabled(due, SendMasterEoi) && Highest(h.master.isr) !in Next(due, SendMasterEoi).master.isr
  {
    hide WriteCommand;
    CommandEffects(Next(h, HandlerDone).master);
  }

  /** Every clash does damage: the spurious frame runs as a genuine one and its EOI retires
      a line that an interrupted frame still holds. */
  lemma {:induction false} ClashRetiresAnothersLine(m: Machine)
    requires Inv(m) && Enabled(m, IntaMaster) && Clash(m, IntaMaster)
    ensures var entered := Next(m, IntaMaster);
      && Enabled(entered, Check)
      && var handling := Next(entered, Check);
      && Enabled(handling, HandlerDone) && !Top(handling).genuine
      && var due := Next(handling, HandlerDone);
      && Enabled(due, SendMasterEoi)
      && Highest(m.master.isr) in MasterHeld(m.frames)
      && Highest(m.master.isr) !in Next(due, SendMasterEoi).master.isr
  {
    hide Inv, MasterHeld, Next, Clash;
    ClashEnters(m);
    CheckLetsPass(Next(m, IntaMaster));
    EndRetiresHighest(Next(Next(m, IntaMaster), Check));
  }

  ghost predicate Reaches(boot: Machine, steps: seq<Step>, m: Machine) {
    Run(boot, steps) == Some(m) && ClashFree(boot, steps)
  }

  lemma {:induction false} Extend(boot: Machine, steps: seq<Step>, m: Machine, st: Step)
    requires Reaches(boot, steps, m) && Enabled(m, st) && !Clash(m, st)
    ensures Reaches(boot, steps + [st], Next(m, st))
  {
  }

  /** The master has masks and requests clear, `isr` in service and no acknowledge under way. */
  ghost predicate Rested(m: Machine, isr: set<Line>) {
    && m.ack.Idle? && m.master.base == MASTER_BASE && |m.routines| == NUM_INTERRUPTS
    && m.master.irr == {} && m.master.imr == {} && m.master.isr == isr
    && m.slave.irr == {} && m.slave.isr == {}
    && m.high <= {7}
  }

  lemma {:induction false} OneRequest(m: Machine, isr: set<Line>, i: Line)
    requires Rested(m.(master := m.master.(irr := {})), isr) && m.master.irr == {i}
    requires forall j :: j in isr ==> i < j
    ensures MasterChoice(m) == if i == CASCADE then 8 else i
  {
  }

  /** IRQ7 rises and is acknowledged. */
  lemma {:induction false} Irq7Delivered(boot: Machine, steps: seq<Step>, m: Machine)
    returns (more: seq<Step>, n: Machine)
    requires Reaches(boot, steps, m) && Rested(m, {}) && m.cpuIf && m.frames == [] && m.high == {}
    ensures Reaches(boot, more, n) && Rested(n, {7})
    ensures n.frames == [Frame(IRQ7, true, 0, Entered, true)]
  {
    hide Run, ClashFree, SlaveChoice;
    Extend(boot, steps, m, Raise(7));
    n := Next(m, Raise(7));
    assert n.master.irr == {7} && n.high == {7} && Rested(n.(master := n.master.(irr := {})), {});
    OneRequest(n, {}, 7);
    Extend(boot, steps + [Raise(7)], n, Recognise);
    n := Next(n, Recognise);
    assert MasterChoice(n) == 7;
    Extend(boot, steps + [Raise(7)] + [Recognise], n, IntaMaster);
    n := Next(n, IntaMaster);
    assert n.master.irr == {} && n.master.isr == {7};
    more := steps + [Raise(7)] + [Recognise] + [IntaMaster];
  }

  lemma {:induction false} CheckKeepsRested(m: Machine)
    requires Rested(m, {7}) && m.frames == [Frame(IRQ7, true, 0, Entered, true)]
    ensures Rested(CheckFrame(m), {7}) && Top(CheckFrame(m)).stage == Handling
  {
  }

  lemma {:induction false} Irq7Checked(boot: Machine, steps: seq<Step>, m: Machine)
    returns (more: seq<Step>, n: Machine)
    requires Reaches(boot, steps, m) && Rested(m, {7})
    requires m.frames == [Frame(IRQ7, true, 0, Entered, true)]
    ensures Reaches(boot, more, n) && Rested(n, {7}) && AtStage(n, Handling)
  {
    CheckKeepsRested(m);
    Extend(boot, steps, m, Check);
    n := Next(m, Check);
    more := steps + [Check];
  }

  /** IRQ3 rises over a running handler, is sampled, and drops before the acknowledge. */
  lemma {:induction false} Irq3Drops(boot: Machine, steps: seq<Step>, m: Machine) returns (more: seq<Step>, n: Machine)
    requires Reaches(boot, steps, m) && Rested(m, {7}) && m.cpuIf
    ensures Reaches(boot, more, n) && n.ack.Sampled? && Rested(n.(ack := Idle), {7})
  {
    Extend(boot, steps, m, Raise(3));
    n := Next(m, Raise(3));
    assert n.master.irr == {3};
    assert MasterChoice(n) == 3 by {
      var q := n.(high := m.high);
      OneRequest(q, {7}, 3);
      assert MasterChoice(n) == MasterChoice(q);
    }
    Extend(boot, steps + [Raise(3)], n, Recognise);
    n := Next(n, Recognise);
    Extend(boot, steps + [Raise(3)] + [Recognise], n, Lower(3));
    n := Next(n, Lower(3));
    more := steps + [Raise(3)] + [Recognise] + [Lower(3)];
  }

  /** Such an acknowledge is reachable from boot. */
  lemma {:induction false} ClashIsReachable(boot: Machine) returns (steps: seq<Step>, m: Machine)
    requires Boot(boot) && boot.high == {}
    requires boot.master.irr == {} && boot.slave.irr == {} && boot.master.imr == {}
    ensures Run(boot, steps) == Some(m) && ClashFree(boot, steps)
    ensures Enabled(m, IntaMaster) && Clash(m, IntaMaster)
  {
    Extend(boot, [], boot, SetIf(true));
    steps, m := Irq7Delivered(boot, [] + [SetIf(true)], Next(boot, SetIf(true)));
    steps, m := Irq7Checked(boot, steps, m);
    Extend(boot, steps, m, SetIf(true));
    steps, m := Irq3Drops(boot, steps + [SetIf(true)], Next(m, SetIf(true)));
    assert MasterRequests(m) == {};
  }
}
