/** The kernel's interrupt code as it runs: port I/O to the two controllers, the descriptor
    table, the handler table and the dispatcher, tied to the state machine. */
module InterruptKernel {
  import opened Basics
  import opened Pic8259
  import opened InterruptMachine
  import StubFrames

  const MASTER_COMMAND := 0x20
  const MASTER_DATA := 0x21
  const SLAVE_COMMAND := 0xA0
  const SLAVE_DATA := 0xA1
  const UNUSED_PORT := 0x80
  const INTERRUPT_GATE: Byte := 0x8E
  const USER_GATE: Byte := 0xBE

  type Half = v: int | 0 <= v < 0x1_0000
  type Address = v: int | 0 <= v < 0x1_0000_0000

  datatype IdtEntry = IdtEntry(baseLo: Half, sel: Half, always0: Byte, flags: Byte, baseHi: Half)

  const EMPTY_ENTRY := IdtEntry(0, 0, 0, 0, 0)
  const ENTRY_BYTES := 8

  /** The address the CPU rebuilds from the two halves. */
  function Target(e: IdtEntry): Address {
    e.baseHi * 0x1_0000 + e.baseLo
  }

  predicate LeadsTo(e: IdtEntry, base: Address, sel: Half, flags: Byte) {
    Target(e) == base && e.sel == sel && e.flags == flags && e.always0 == 0
  }

  /** Addresses the linker gives the stubs of vectors 0..47 and of isr120. */
  datatype Labels = Labels(stubs: seq<Address>, isr120: Address)

  /** Vectors 0..47 lead to their stubs through kernel interrupt gates. */
  ghost predicate Installed(idt: seq<IdtEntry>, labels: Labels) {
    && |idt| == NUM_INTERRUPTS && |labels.stubs| == StubFrames.STUBS
    && forall v :: 0 <= v < StubFrames.STUBS ==>
         LeadsTo(idt[v], labels.stubs[v], StubFrames.KERNEL_CODE, INTERRUPT_GATE)
  }

  /** The entries below n lead to their stubs; the others are as they were. */
  ghost predicate LedUpTo(was: seq<IdtEntry>, idt: seq<IdtEntry>, labels: Labels, n: nat)
    requires |was| == NUM_INTERRUPTS && |labels.stubs| == StubFrames.STUBS && n <= StubFrames.STUBS
  {
    && |idt| == NUM_INTERRUPTS
    && (forall v :: 0 <= v < n ==> LeadsTo(idt[v], labels.stubs[v], StubFrames.KERNEL_CODE, INTERRUPT_GATE))
    && forall v :: n <= v < NUM_INTERRUPTS ==> idt[v] == was[v]
  }

  /** What a write does to the chip whose command and data ports are given. */
  function Written(c: Chip, command: int, data: int, port: int, v: Byte): Chip {
    if port == command then WriteCommand(c, v) else if port == data then WriteData(c, v) else c
  }

  ////////////////////////////////////////////////////////////////////////////
  // What single steps do, port commands decoded
  ////////////////////////////////////////////////////////////////////////////

  lemma {:induction false} MasterEoiForm(s: Machine)
    requires AtStage(s, MasterEoiDue)
    ensures Next(s, SendMasterEoi) == SetTop(s, Top(s).(stage := Returning)).(
      master := s.master.(isr := EndOfInterrupt(s.master.isr)),
      log := s.log + [MasterEoi(Highest(s.master.isr))])
  {
    CommandEffects(s.master);
  }

  lemma {:induction false} SlaveEoiForm(s: Machine)
    requires AtStage(s, SlaveEoiDue)
    ensures Next(s, SendSlaveEoi) == SetTop(s, Top(s).(stage := MasterEoiDue)).(
      slave := s.slave.(isr := EndOfInterrupt(s.slave.isr)),
      log := s.log + [SlaveEoi(Highest(s.slave.isr))])
  {
    CommandEffects(s.slave);
  }

  lemma {:induction false} HandlerDoneForm(s: Machine)
    requires AtStage(s, Handling)
    ensures Next(s, HandlerDone) == SetTop(s, Top(s).(stage := AfterHandler(Top(s).vector)))
  {
  }

  lemma {:induction false} CheckForm(m: Machine)
    requires Enabled(m, Check)
    ensures var f := Top(m).(handler := m.routines[Top(m).vector], stage := AfterCheck(Top(m).vector, IsrWord(m)));
      var selects := f.vector == IRQ7 || f.vector == IRQ15;
      Next(m, Check) == SetTop(m, f).(
        master := if selects then m.master.(readIsr := true) else m.master,
        slave := if selects then m.slave.(readIsr := true) else m.slave,
        log := m.log + if f.stage == Handling then CallEvents(f) else [])
  {
    hide AfterCheck, IsrWord, BitSet;
    CommandEffects(m.master);
    CommandEffects(m.slave);
  }

  ////////////////////////////////////////////////////////////////////////////
  // One service, with whatever comes in between
  ////////////////////////////////////////////////////////////////////////////

  /** Steps that belong to others: devices, the handler's own code, complete interrupts on top.
      The frames there were stay as they are all along, and nothing else is left at the end. */
  ghost predicate Interlude(s: Machine, steps: seq<Step>) {
    && Run(s, steps).Some?
    && Run(s, steps).value.frames == s.frames && Run(s, steps).value.ack.Idle?
    && forall n :: 0 <= n <= |steps| ==> StaysAbove(s, steps[..n])
  }

  ghost predicate StaysAbove(s: Machine, steps: seq<Step>) {
    Run(s, steps).Some? && s.frames <= Run(s, steps).value.frames
  }

  /** What happens while one frame is in IRQ_Handler: during its handler, and before each EOI. */
  datatype Gaps = Gaps(handler: seq<Step>, beforeSlaveEoi: seq<Step>, beforeMasterEoi: seq<Step>)

  ghost function MasterEnded(s: Machine, steps: seq<Step>): Option<Machine>
    requires AtStage(s, MasterEoiDue)
  {
    if Interlude(s, steps) then Some(Next(Run(s, steps).value, SendMasterEoi)) else None
  }

  ghost function SlaveEnded(s: Machine, gaps: Gaps): Option<Machine>
    requires AtStage(s, SlaveEoiDue)
  {
    if Interlude(s, gaps.beforeSlaveEoi)
    then MasterEnded(Next(Run(s, gaps.beforeSlaveEoi).value, SendSlaveEoi), gaps.beforeMasterEoi)
    else None
  }

  ghost function Handled(s: Machine, gaps: Gaps): Option<Machine>
    requires AtStage(s, Handling)
  {
    if !Interlude(s, gaps.handler) then None
    else
      var done := Next(Run(s, gaps.handler).value, HandlerDone);
      if Top(s).vector >= IRQ8 then SlaveEnded(done, gaps) else MasterEnded(done, gaps.beforeMasterEoi)
  }

  /** One run of IRQ_Handler for the innermost frame; None if the gaps are not interludes. */
  ghost function AfterService(m: Machine, gaps: Gaps): Option<Machine>
    requires Enabled(m, Check)
  {
    var s := Next(m, Check);
    if Top(s).stage == Returning then Some(s)
    else if Top(s).stage == MasterEoiDue then MasterEnded(s, gaps.beforeMasterEoi)
    else Handled(s, gaps)
  }

  /** The steps of the state machine it goes through. */
  function ServiceSteps(vector: nat, isrWord: nat, gaps: Gaps): seq<Step> {
    match AfterCheck(vector, isrWord)
    case Returning => [Check]
    case MasterEoiDue => [Check] + (gaps.beforeMasterEoi + [SendMasterEoi])
    case _ => [Check] + (gaps.handler + [HandlerDone] + EoiSteps(vector, gaps))
  }

  function EoiSteps(vector: nat, gaps: Gaps): seq<Step> {
    (if vector >= IRQ8 then gaps.beforeSlaveEoi + [SendSlaveEoi] else [])
    + (gaps.beforeMasterEoi + [SendMasterEoi])
  }

  lemma {:induction false} RunAppend(m: Machine, a: seq<Step>, b: seq<Step>)
    requires Run(m, a).Some?
    ensures Run(m, a + b) == Run(Run(m, a).value, b)
  {
    hide Next, Enabled;
    if b == [] {
      assert a + b == a;
    } else {
      var init := b[..|b| - 1];
      RunAppend(m, a, init);
      assert (a + b)[..|a + b| - 1] == a + init;
    }
  }

  lemma {:induction false} RunThen(s: Machine, steps: seq<Step>, st: Step)
    requires Run(s, steps).Some? && Enabled(Run(s, steps).value, st)
    ensures Run(s, steps + [st]) == Some(Next(Run(s, steps).value, st))
  {
  }

  lemma {:induction false} EoisRun(s: Machine, gaps: Gaps)
    requires AtStage(s, SlaveEoiDue) || AtStage(s, MasterEoiDue)
    requires Top(s).stage == AfterHandler(Top(s).vector)
    requires var r := if Top(s).stage == SlaveEoiDue then SlaveEnded(s, gaps) else MasterEnded(s, gaps.beforeMasterEoi);
      r.Some?
    ensures var r := if Top(s).stage == SlaveEoiDue then SlaveEnded(s, gaps) else MasterEnded(s, gaps.beforeMasterEoi);
      Run(s, EoiSteps(Top(s).vector, gaps)) == r
  {
    hide Next, Run;
    var last := gaps.beforeMasterEoi + [SendMasterEoi];
    if Top(s).stage == SlaveEoiDue {
      var first := gaps.beforeSlaveEoi + [SendSlaveEoi];
      SlaveEoiForm(Run(s, gaps.beforeSlaveEoi).value);
      RunThen(s, gaps.beforeSlaveEoi, SendSlaveEoi);
      var e := Run(s, first).value;
      RunThen(e, gaps.beforeMasterEoi, SendMasterEoi);
      RunAppend(s, first, last);
    } else {
      RunThen(s, gaps.beforeMasterEoi, SendMasterEoi);
      assert [] + last == last;
    }
  }

  lemma {:induction false} HandledRuns(s: Machine, gaps: Gaps)
    requires AtStage(s, Handling) && Handled(s, gaps).Some?
    ensures Run(s, gaps.handler + [HandlerDone] + EoiSteps(Top(s).vector, gaps)) == Handled(s, gaps)
  {
    hide EoiSteps, MasterEnded, SlaveEnded, Run, Next;
    HandlerDoneForm(Run(s, gaps.handler).value);
    RunThen(s, gaps.handler, HandlerDone);
    var done := Run(s, gaps.handler + [HandlerDone]).value;
    EoisRun(done, gaps);
    RunAppend(s, gaps.handler + [HandlerDone], EoiSteps(Top(s).vector, gaps));
  }

  /** What IRQ_Handler is proved against is what the steps of the state machine do, with
      anything nested in between. */
  lemma {:induction false} ServiceRuns(m: Machine, gaps: Gaps)
    requires Enabled(m, Check) && AfterService(m, gaps).Some?
    ensures Run(m, ServiceSteps(Top(m).vector, IsrWord(m), gaps)) == AfterService(m, gaps)
  {
    hide Run, Handled, EoiSteps;
    var s := Next(m, Check);
    OneStep(m, Check);
    if Top(s).stage == MasterEoiDue {
      RunThen(s, gaps.beforeMasterEoi, SendMasterEoi);
      RunAppend(m, [Check], gaps.beforeMasterEoi + [SendMasterEoi]);
    } else if Top(s).stage == Handling {
      HandledRuns(s, gaps);
      RunAppend(m, [Check], gaps.handler + [HandlerDone] + EoiSteps(Top(s).vector, gaps));
    }
  }

  lemma {:induction false} OneStep(m: Machine, st: Step)
    requires Enabled(m, st)
    ensures Run(m, [st]) == Some(Next(m, st))
  {
    assert [st][..0] == [];
  }

  /** The five words the installer sends one chip, its mask last. */
  lemma {:induction false} InitialisationWords(c: Chip, base: Byte, cascade: Byte)
    ensures var words := WriteData(WriteData(WriteData(
                           WriteCommand(c, ICW1_INIT_ICW4), base), cascade), ICW4_8086);
      WriteData(words, ByteOf(c.imr)) == c.(
        irr := {}, phase := Ready, single := false, wantsIcw4 := true, mode := ICW4_8086, readIsr := false,
        base := base - base % 8, cascade := cascade)
  {
    assert WriteCommand(c, ICW1_INIT_ICW4) ==
      c.(irr := {}, imr := {}, phase := ExpectIcw2, single := false, wantsIcw4 := true, readIsr := false);
    MaskSurvivesTheBus(c.imr);
  }

  /** What lidt loads: where the table is, and its last byte. */
  datatype TablePointer = TablePointer(limit: Half, base: Address)

  class Kernel {
    var master: Chip
    var slave: Chip
    var routines: seq<nat>
    var idt: seq<IdtEntry>
    var idtp: TablePointer
    const idtAddress: Address

    // The machine around the code: the CPU's table register and IF, device lines, the stack of
    // frames, and the history.
    var idtr: TablePointer
    var cpuIf: bool
    var high: set<nat>
    var frames: seq<Frame>
    var log: seq<Event>
    var served: seq<Frame>

    constructor (master: Chip, slave: Chip, idtAddress: Address)
      ensures this.master == master && this.slave == slave && this.idtAddress == idtAddress
      ensures routines == seq(NUM_INTERRUPTS, _ => 0) && idt == seq(NUM_INTERRUPTS, _ => EMPTY_ENTRY)
      ensures !cpuIf && frames == [] && log == [] && served == []
    {
      this.master, this.slave, this.idtAddress := master, slave, idtAddress;
      routines := seq(NUM_INTERRUPTS, _ => 0);
      idt := seq(NUM_INTERRUPTS, _ => EMPTY_ENTRY);
      idtp, idtr := TablePointer(0, 0), TablePointer(0, 0);
      cpuIf, high, frames, log, served := false, {}, [], [], [];
    }

    /** The state machine's view of this kernel, with no acknowledge under way. */
    function View(): Machine
      reads this
    {
      Machine(master, slave, high, cpuIf, Idle, frames, routines, log, served)
    }

    //////////////////////////////////////////////////////////////////////////
    // 8259.c
    //////////////////////////////////////////////////////////////////////////

    method Outb(port: int, v: Byte)
      modifies `master, `slave
      ensures master == Written(old(master), MASTER_COMMAND, MASTER_DATA, port, v)
      ensures slave == Written(old(slave), SLAVE_COMMAND, SLAVE_DATA, port, v)
      ensures master == if port == 0x20 then WriteCommand(old(master), v)
                        else if port == 0x21 then WriteData(old(master), v) else old(master)
      ensures slave == if port == 0xA0 then WriteCommand(old(slave), v)
                       else if port == 0xA1 then WriteData(old(slave), v) else old(slave)
    {
      master := Written(master, MASTER_COMMAND, MASTER_DATA, port, v);
      slave := Written(slave, SLAVE_COMMAND, SLAVE_DATA, port, v);
    }

    method Inb(port: int) returns (v: Byte)
      ensures v == if port == MASTER_COMMAND then ReadCommand(master)
                   else if port == MASTER_DATA then ReadData(master)
                   else if port == SLAVE_COMMAND then ReadCommand(slave)
                   else if port == SLAVE_DATA then ReadData(slave)
                   else 0xFF
    {
      v := if port == MASTER_COMMAND then ReadCommand(master)
           else if port == MASTER_DATA then ReadData(master)
           else if port == SLAVE_COMMAND then ReadCommand(slave)
           else if port == SLAVE_DATA then ReadData(slave)
           else 0xFF;
    }

    method IoWait()
      modifies `master, `slave
      ensures master == old(master) && slave == old(slave)
    {
      Outb(UNUSED_PORT, 0);
    }

    /** From any phase of either chip: both ready, based and cascaded, edge latches clear,
        and masked as they were when the routine began. */
    method InitializePic(masterBase: nat, slaveBase: nat)
      modifies `master, `slave
      ensures master == old(master).(
        irr := {}, phase := Ready, single := false, wantsIcw4 := true, mode := ICW4_8086, readIsr := false,
        base := masterBase % 256 - masterBase % 256 % 8, cascade := 0x04)
      ensures slave == old(slave).(
        irr := {}, phase := Ready, single := false, wantsIcw4 := true, mode := ICW4_8086, readIsr := false,
        base := slaveBase % 256 - slaveBase % 256 % 8, cascade := 0x02)
    {
      InitialisationWords(master, masterBase % 256, 0x04);
      InitialisationWords(slave, slaveBase % 256, 0x02);
      var masterMask := Inb(MASTER_DATA);
      var slaveMask := Inb(SLAVE_DATA);
      Outb(MASTER_COMMAND, ICW1_INIT_ICW4);
      IoWait();
      Outb(SLAVE_COMMAND, ICW1_INIT_ICW4);
      IoWait();
      Outb(MASTER_DATA, masterBase % 256);
      IoWait();
      Outb(SLAVE_DATA, slaveBase % 256);
      IoWait();
      Outb(MASTER_DATA, 0x04);
      IoWait();
      Outb(SLAVE_DATA, 0x02);
      IoWait();
      Outb(MASTER_DATA, ICW4_8086);
      IoWait();
      Outb(SLAVE_DATA, ICW4_8086);
      IoWait();
      Outb(MASTER_DATA, masterMask);
      Outb(SLAVE_DATA, slaveMask);
    }

    method PicEoiMaster()
      modifies `master, `slave, `log
      ensures master == old(master).(isr := EndOfInterrupt(old(master.isr))) && slave == old(slave)
      ensures log == old(log) + [MasterEoi(Highest(old(master.isr)))]
    {
      CommandEffects(master);
      log := log + [MasterEoi(Highest(master.isr))];
      Outb(MASTER_COMMAND, CMD_END_OF_INTERRUPT);
    }

    method PicEoiSlave()
      modifies `master, `slave, `log
      ensures slave == old(slave).(isr := EndOfInterrupt(old(slave.isr))) && master == old(master)
      ensures log == old(log) + [SlaveEoi(Highest(old(slave.isr)))]
    {
      CommandEffects(slave);
      log := log + [SlaveEoi(Highest(slave.isr))];
      Outb(SLAVE_COMMAND, CMD_END_OF_INTERRUPT);
    }

    /** Whatever was selected before, the word holds both in-service registers. */
    method PicReadIsr() returns (w: nat)
      modifies `master, `slave
      ensures w == ByteOf(old(master.isr)) + 256 * ByteOf(old(slave.isr))
      ensures master == old(master).(readIsr := true) && slave == old(slave).(readIsr := true)
    {
      CommandEffects(master);
      CommandEffects(slave);
      Outb(MASTER_COMMAND, CMD_READ_ISR);
      Outb(SLAVE_COMMAND, CMD_READ_ISR);
      var lo: int := Inb(MASTER_COMMAND);
      var hi: int := Inb(SLAVE_COMMAND);
      w := lo + 256 * hi;
    }

    /** Whatever was selected before, the word holds both request registers. */
    method PicReadIrr() returns (w: nat)
      modifies `master, `slave
      ensures w == ByteOf(old(master.irr)) + 256 * ByteOf(old(slave.irr))
      ensures master == old(master).(readIsr := false) && slave == old(slave).(readIsr := false)
    {
      CommandEffects(master);
      CommandEffects(slave);
      Outb(MASTER_COMMAND, CMD_READ_IRR);
      Outb(SLAVE_COMMAND, CMD_READ_IRR);
      var lo: int := Inb(MASTER_COMMAND);
      var hi: int := Inb(SLAVE_COMMAND);
      w := lo + 256 * hi;
    }

    //////////////////////////////////////////////////////////////////////////
    // interrupt.c
    //////////////////////////////////////////////////////////////////////////

    /** The state machine's install step, wherever code can run; what comes of it is for
        Dispatch.InstallLasts to say. */
    method InstallHandler(index: nat, handler: nat)
      requires index < |routines|
      modifies `routines
      ensures View() == old(View()).(routines := routines) && |routines| == |old(routines)|
      ensures Running(old(View())) ==> Run(old(View()), [Install(index, handler)]) == Some(View())
      ensures forall v :: 0 <= v < |routines| ==> routines[v] == if v == index then handler else old(routines)[v]
    {
      if Running(View()) {
        OneStep(View(), Install(index, handler));
      }
      routines := routines[index := handler];
    }

    method UninstallHandler(index: nat)
      requires index < |routines|
      modifies `routines
      ensures View() == old(View()).(routines := routines) && |routines| == |old(routines)|
      ensures Running(old(View())) ==> Run(old(View()), [Uninstall(index)]) == Some(View())
      ensures forall v :: 0 <= v < |routines| ==> routines[v] == if v == index then 0 else old(routines)[v]
    {
      if Running(View()) {
        OneStep(View(), Uninstall(index));
      }
      routines := routines[index := 0];
    }

    /** What others do while a frame waits. */
    method Elsewhere(steps: seq<Step>)
      requires Interlude(View(), steps)
      modifies `master, `slave, `routines, `cpuIf, `high, `frames, `log, `served
      ensures Run(old(View()), steps) == Some(View()) && frames == old(frames)
    {
      var s := Run(View(), steps).value;
      master, slave, routines, cpuIf, high := s.master, s.slave, s.routines, s.cpuIf, s.high;
      frames, log, served := s.frames, s.log, s.served;
    }

    /** The innermost frame gets on. */
    method MoveTo(stage: Stage, handler: nat)
      requires frames != []
      modifies `frames
      ensures View() == SetTop(old(View()), Top(old(View())).(stage := stage, handler := handler))
    {
      var f := frames[|frames| - 1];
      frames := frames[..|frames| - 1] + [f.(stage := stage, handler := handler)];
    }

    /** The EOI that ends the innermost frame's service, after what comes before it. */
    method EndService(steps: seq<Step>)
      requires AtStage(View(), MasterEoiDue) && Interlude(View(), steps)
      modifies `master, `slave, `routines, `cpuIf, `high, `frames, `log, `served
      ensures Some(View()) == MasterEnded(old(View()), steps)
    {
      hide Highest, EndOfInterrupt, Run, Next;
      Elsewhere(steps);
      MasterEoiForm(View());
      PicEoiMaster();
      MoveTo(Returning, Top(View()).handler);
    }

    /** IRQ_Handler from the handler's first instruction on. */
    method FinishHandler(intNo: nat, gaps: Gaps)
      requires AtStage(View(), Handling) && Top(View()).vector == intNo && Handled(View(), gaps).Some?
      modifies `master, `slave, `routines, `cpuIf, `high, `frames, `log, `served
      ensures Some(View()) == Handled(old(View()), gaps)
    {
      hide Highest, EndOfInterrupt, Interlude, Run, Next;
      Elsewhere(gaps.handler);
      HandlerDoneForm(View());
      MoveTo(AfterHandler(intNo), Top(View()).handler);
      if intNo >= IRQ8 {
        FinishSlave(gaps);
      } else {
        EndService(gaps.beforeMasterEoi);
      }
    }

    method FinishSlave(gaps: Gaps)
      requires AtStage(View(), SlaveEoiDue) && SlaveEnded(View(), gaps).Some?
      modifies `master, `slave, `routines, `cpuIf, `high, `frames, `log, `served
      ensures Some(View()) == SlaveEnded(old(View()), gaps)
    {
      hide Highest, EndOfInterrupt, Interlude, Run, Next;
      Elsewhere(gaps.beforeSlaveEoi);
      SlaveEoiForm(View());
      PicEoiSlave();
      MoveTo(MasterEoiDue, Top(View()).handler);
      EndService(gaps.beforeMasterEoi);
    }

    /** The two spurious tests: where a frame goes from here. */
    method TestSpurious(intNo: nat) returns (stage: Stage)
      modifies `master, `slave
      ensures stage == AfterCheck(intNo, IsrWord(old(View())))
      ensures var selects := intNo == IRQ7 || intNo == IRQ15;
        && master == (if selects then old(master).(readIsr := true) else old(master))
        && slave == (if selects then old(slave).(readIsr := true) else old(slave))
    {
      hide BitSet, ByteOf;
      if intNo == IRQ7 {
        var isr := PicReadIsr();
        if !BitSet(isr, 7) {
          return Returning;
        }
      }
      if intNo == IRQ15 {
        var isr := PicReadIsr();
        if !BitSet(isr, 15) {
          return MasterEoiDue;
        }
      }
      return Handling;
    }

    /** IRQ_Handler up to the handler's first instruction. */
    method LookUpAndCheck(intNo: nat) returns (stage: Stage)
      requires Enabled(View(), Check) && Top(View()).vector == intNo
      modifies `master, `slave, `frames, `log
      ensures View() == Next(old(View()), Check) && stage == Top(View()).stage
    {
      hide BitSet, ByteOf, Next, AfterCheck, IsrWord;
      var handler := routines[intNo];
      CheckForm(View());
      stage := TestSpurious(intNo);
      MoveTo(stage, handler);
      if stage == Handling && handler != 0 {
        log := log + [Called(intNo, handler)];
      }
    }

    /** IRQ_Handler for the innermost frame, with interrupts and other code in the gaps: what
        the state machine's steps do (ServiceRuns). */
    method IrqHandler(intNo: nat, gaps: Gaps)
      requires Enabled(View(), Check) && Top(View()).vector == intNo
      requires AfterService(View(), gaps).Some?
      modifies `master, `slave, `routines, `cpuIf, `high, `frames, `log, `served
      ensures Some(View()) == AfterService(old(View()), gaps)
    {
      hide Interlude, Run;
      var stage := LookUpAndCheck(intNo);
      if stage == Returning {
        return;
      }
      if stage == MasterEoiDue {
        EndService(gaps.beforeMasterEoi);
        return;
      }
      FinishHandler(intNo, gaps);
    }

    /** Vectors below 32 end in a panic, 32..47 are interrupt requests, the rest are ignored. */
    method InterruptHandler(intNo: nat, gaps: Gaps) returns (panicked: bool)
      requires IRQ0 <= intNo <= IRQ15 ==>
        Enabled(View(), Check) && Top(View()).vector == intNo && AfterService(View(), gaps).Some?
      modifies `master, `slave, `routines, `cpuIf, `high, `frames, `log, `served
      ensures panicked <==> intNo < 32
      ensures if IRQ0 <= intNo <= IRQ15
        then Run(old(View()), ServiceSteps(intNo, IsrWord(old(View())), gaps)) == Some(View())
        else View() == old(View())
    {
      panicked := intNo < 32;
      if IRQ0 <= intNo <= IRQ15 {
        ServiceRuns(View(), gaps);
        IrqHandler(intNo, gaps);
      }
    }

    //////////////////////////////////////////////////////////////////////////
    // idt.c and the installer
    //////////////////////////////////////////////////////////////////////////

    method CreateIdtEntry(num: Byte, base: Address, sel: Half, flags: Byte)
      requires |idt| == NUM_INTERRUPTS
      modifies `idt
      ensures |idt| == NUM_INTERRUPTS && idt == old(idt)[num := idt[num]]
      ensures LeadsTo(idt[num], base, sel, flags)
      ensures idt[num] == IdtEntry(base % 0x1_0000, sel, 0, flags, base / 0x1_0000)
    {
      var e := idt[num];
      e := e.(baseHi := base / 0x1_0000 % 0x1_0000);
      e := e.(baseLo := base % 0x1_0000);
      e := e.(sel := sel);
      e := e.(always0 := 0);
      e := e.(flags := flags);
      idt := idt[num := e];
    }

    /** lidt */
    method IdtLoader()
      modifies `idtr
      ensures idtr == idtp
    {
      idtr := idtp;
    }

    /** The CPU finds the table, with exactly the entries of vectors below 256, all empty. */
    method InstallIdt()
      modifies `idt, `idtp, `idtr
      ensures idtr == idtp && idtr.base == idtAddress && idtr.limit == 2047 && |idt| == 256
      ensures forall v: nat :: ENTRY_BYTES * v + ENTRY_BYTES - 1 <= idtr.limit <==> v < |idt|
      ensures |idt| == NUM_INTERRUPTS && forall v :: 0 <= v < |idt| ==> idt[v] == EMPTY_ENTRY
    {
      idtp := idtp.(limit := ENTRY_BYTES * NUM_INTERRUPTS - 1);
      idtp := idtp.(base := idtAddress);
      idt := seq(NUM_INTERRUPTS, _ => EMPTY_ENTRY);
      IdtLoader();
    }

    /** One kernel interrupt gate, after those below it. */
    method InstallGate(v: Byte, ghost was: seq<IdtEntry>, labels: Labels)
      requires |was| == NUM_INTERRUPTS && |labels.stubs| == StubFrames.STUBS
      requires v < StubFrames.STUBS && LedUpTo(was, idt, labels, v)
      modifies `idt
      ensures LedUpTo(was, idt, labels, v + 1)
    {
      CreateIdtEntry(v, labels.stubs[v], 0x08, 0x8E);
    }

    /** Vectors 0..15. */
    method InstallLowExceptions(ghost was: seq<IdtEntry>, labels: Labels)
      requires |was| == NUM_INTERRUPTS && |labels.stubs| == StubFrames.STUBS
      requires LedUpTo(was, idt, labels, 0)
      modifies `idt
      ensures LedUpTo(was, idt, labels, 16)
    {
      hide LedUpTo;
      InstallGate(0, was, labels);
      InstallGate(1, was, labels);
      InstallGate(2, was, labels);
      InstallGate(3, was, labels);
      InstallGate(4, was, labels);
      InstallGate(5, was, labels);
      InstallGate(6, was, labels);
      InstallGate(7, was, labels);
      InstallGate(8, was, labels);
      InstallGate(9, was, labels);
      InstallGate(10, was, labels);
      InstallGate(11, was, labels);
      InstallGate(12, was, labels);
      InstallGate(13, was, labels);
      InstallGate(14, was, labels);
      InstallGate(15, was, labels);
    }

    /** Vectors 16..31. */
    method InstallHighExceptions(ghost was: seq<IdtEntry>, labels: Labels)
      requires |was| == NUM_INTERRUPTS && |labels.stubs| == StubFrames.STUBS
      requires LedUpTo(was, idt, labels, 16)
      modifies `idt
      ensures LedUpTo(was, idt, labels, 32)
    {
      hide LedUpTo;
      InstallGate(16, was, labels);
      InstallGate(17, was, labels);
      InstallGate(18, was, labels);
      InstallGate(19, was, labels);
      InstallGate(20, was, labels);
      InstallGate(21, was, labels);
      InstallGate(22, was, labels);
      InstallGate(23, was, labels);
      InstallGate(24, was, labels);
      InstallGate(25, was, labels);
      InstallGate(26, was, labels);
      InstallGate(27, was, labels);
      InstallGate(28, was, labels);
      InstallGate(29, was, labels);
      InstallGate(30, was, labels);
      InstallGate(31, was, labels);
    }

    /** Vectors 32..47. */
    method InstallRequests(ghost was: seq<IdtEntry>, labels: Labels)
      requires |was| == NUM_INTERRUPTS && |labels.stubs| == StubFrames.STUBS
      requires LedUpTo(was, idt, labels, 32)
      modifies `idt
      ensures LedUpTo(was, idt, labels, 48)
    {
      hide LedUpTo;
      InstallGate(32, was, labels);
      InstallGate(33, was, labels);
      InstallGate(34, was, labels);
      InstallGate(35, was, labels);
      InstallGate(36, was, labels);
      InstallGate(37, was, labels);
      InstallGate(38, was, labels);
      InstallGate(39, was, labels);
      InstallGate(40, was, labels);
      InstallGate(41, was, labels);
      InstallGate(42, was, labels);
      InstallGate(43, was, labels);
      InstallGate(44, was, labels);
      InstallGate(45, was, labels);
      InstallGate(46, was, labels);
      InstallGate(47, was, labels);
    }

    /** The controllers based at 32 and 40, every vector 0..47 led to its stub, and the two
        entries for the mode switch as the code writes them: both to stub 120. */
    method InstallInterrupts(labels: Labels)
      requires |idt| == NUM_INTERRUPTS && |labels.stubs| == StubFrames.STUBS
      modifies `master, `slave, `idt
      ensures Installed(idt, labels)
      ensures forall v :: 0 <= v < 48 ==>
        && idt[v].baseHi * 0x1_0000 + idt[v].baseLo == labels.stubs[v]
        && idt[v].sel == 0x08 && idt[v].always0 == 0 && idt[v].flags == 0x8E
      ensures LeadsTo(idt[120], labels.isr120, 0x08, 0x8E) && LeadsTo(idt[121], labels.isr120, 0x08, 0xBE)
      ensures forall v :: StubFrames.STUBS <= v < NUM_INTERRUPTS && v != 120 && v != 121 ==> idt[v] == old(idt)[v]
      ensures master.phase.Ready? && slave.phase.Ready?
      ensures master.base == MASTER_BASE == 0x20 && slave.base == SLAVE_BASE == 0x28
      ensures master.isr == old(master.isr) && slave.isr == old(slave.isr)
      ensures master.imr == old(master.imr) && slave.imr == old(slave.imr)
      ensures master.irr == {} && slave.irr == {}
      ensures (old(master.isr) == {} && old(slave.isr) == {} && !cpuIf && frames == [] && log == [] && served == []
               && |routines| == NUM_INTERRUPTS) ==> Boot(View())
    {
      InitializePic(0x20, 0x28);
      ghost var was := idt;
      InstallLowExceptions(was, labels);
      InstallHighExceptions(was, labels);
      InstallRequests(was, labels);
      CreateIdtEntry(120, labels.isr120, 0x08, 0x8E);
      CreateIdtEntry(121, labels.isr120, 0x08, 0xBE);
    }

    /** kmain up to Enable_Interrupts: the timer's handler, the table, the controllers.  A machine
        with nothing in service and no handler is then in the boot state with that one handler. */
    method StartUp(labels: Labels, timer: nat)
      requires |labels.stubs| == StubFrames.STUBS && |routines| == NUM_INTERRUPTS
      requires master.isr == {} && slave.isr == {}
      requires !cpuIf && frames == [] && log == [] && served == []
      modifies `master, `slave, `routines, `idt, `idtp, `idtr
      ensures Boot(View()) && Installed(idt, labels) && idtr.base == idtAddress
      ensures master.irr == {} && slave.irr == {}
      ensures Boot(View().(routines := old(routines)))
      ensures Run(View().(routines := old(routines)), [Install(IRQ0, timer)]) == Some(View())
      ensures master.imr == old(master.imr) && slave.imr == old(slave.imr)
    {
      InstallHandler(IRQ0, timer);
      InstallIdt();
      InstallInterrupts(labels);
      OneStep(View().(routines := old(routines)), Install(IRQ0, timer));
    }
  }
}
