/** The interrupt path as a state machine: two cascaded controllers, the CPU's
    interrupt flag and acknowledge cycle, the stack of interrupt frames, and the
    dispatcher cut at the points where another interrupt can come in between.

    A step is atomic when nothing can separate its parts.  The dispatcher's spurious
    check is one step because the gates clear IF and devices change neither ISR nor
    the read-select bit.  The two acknowledge pulses are two steps, because a slave
    line may drop between them. */
module InterruptMachine {
  import opened Basics
  import opened Pic8259

  const IRQ0 := 32
  const IRQ2 := 34
  const IRQ7 := 39
  const IRQ8 := 40
  const IRQ15 := 47
  const NUM_INTERRUPTS := 256
  const MASTER_BASE: Byte := 0x20
  const SLAVE_BASE: Byte := 0x28
  const CASCADE: Line := 2

  /** Where a frame stands in the dispatcher. */
  datatype Stage =
    | Entered       // before the spurious check
    | Handling      // in the installed handler, or past a null one
    | SlaveEoiDue   // handler done, vector 40 or above
    | MasterEoiDue
    | Returning     // dispatcher left, iret to come

  /** `genuine` is history: whether a controller put the line in service for this frame.
      The code cannot see it. */
  datatype Frame = Frame(vector: nat, genuine: bool, handler: nat, stage: Stage, savedIf: bool)

  /** The CPU's acknowledge cycle: not begun; INT sampled; first pulse chose the cascade line. */
  datatype Ack = Idle | Sampled | SlaveSelected

  datatype Event =
    | Delivered(vector: nat, genuine: bool)
    | Called(vector: nat, handler: nat)
    | SlaveEoi(retired: nat)
    | MasterEoi(retired: nat)

  datatype Machine = Machine(
    master: Chip,
    slave: Chip,
    high: set<nat>,        // device lines that are high now
    cpuIf: bool,
    ack: Ack,
    frames: seq<Frame>,    // innermost last
    routines: seq<nat>,    // handler table, 0 is null
    log: seq<Event>,
    served: seq<Frame>     // frames that reached iret, oldest first
  )

  datatype Step =
    | Raise(line: nat)
    | Lower(line: nat)
    | SetMasks(masterMask: set<Line>, slaveMask: set<Line>)
    | SetIf(on: bool)
    | Install(index: nat, handler: nat)
    | Uninstall(index: nat)
    | Recognise
    | IntaMaster
    | IntaSlave
    | Check
    | HandlerDone
    | SendSlaveEoi
    | SendMasterEoi
    | Iret

  ////////////////////////////////////////////////////////////////////////////
  // What the controllers offer
  ////////////////////////////////////////////////////////////////////////////

  /** The slave's INT output is the master's line 2.  It is low after every
      acknowledge of the slave, so a level is the same as an edge latched while high. */
  function MasterRequests(m: Machine): set<Line> {
    m.master.irr - {CASCADE} + (if Int(m.slave) then {CASCADE} else {})
  }

  function MasterChoice(m: Machine): nat {
    Highest(Unblocked(MasterRequests(m), m.master.imr, m.master.isr))
  }

  function SlaveChoice(m: Machine): nat {
    Highest(Unblocked(m.slave.irr, m.slave.imr, m.slave.isr))
  }

  /** The word PIC_Read_ISR returns. */
  function IsrWord(m: Machine): nat {
    ByteOf(m.master.isr) + 256 * ByteOf(m.slave.isr)
  }

  ////////////////////////////////////////////////////////////////////////////
  // What the dispatcher does
  ////////////////////////////////////////////////////////////////////////////

  function AfterCheck(vector: nat, isrWord: nat): Stage {
    if vector == IRQ7 && !BitSet(isrWord, 7) then Returning
    else if vector == IRQ15 && !BitSet(isrWord, 15) then MasterEoiDue
    else Handling
  }

  function AfterHandler(vector: nat): Stage {
    if vector >= IRQ8 then SlaveEoiDue else MasterEoiDue
  }

  ////////////////////////////////////////////////////////////////////////////
  // Steps
  ////////////////////////////////////////////////////////////////////////////

  function Top(m: Machine): Frame
    requires m.frames != []
  {
    m.frames[|m.frames| - 1]
  }

  function Below(m: Machine): seq<Frame>
    requires m.frames != []
  {
    m.frames[..|m.frames| - 1]
  }

  function SetTop(m: Machine, f: Frame): Machine
    requires m.frames != []
  {
    m.(frames := Below(m) + [f])
  }

  predicate AtStage(m: Machine, stage: Stage) {
    m.ack.Idle? && m.frames != [] && Top(m).stage == stage
  }

  /** Main code or a handler is executing instructions. */
  predicate Running(m: Machine) {
    m.ack.Idle? && (m.frames == [] || Top(m).stage == Handling)
  }

  predicate Enabled(m: Machine, st: Step) {
    match st
    case Raise(k) => k < 16 && k != CASCADE && k !in m.high
    case Lower(k) => k < 16 && k != CASCADE && k in m.high
    case SetMasks(_, _) => true
    case SetIf(_) => Running(m)
    case Install(v, _) => Running(m) && v < |m.routines|
    case Uninstall(v) => Running(m) && v < |m.routines|
    case Recognise => m.ack.Idle? && m.cpuIf && MasterChoice(m) < 8
    case IntaMaster => m.ack.Sampled?
    case IntaSlave => m.ack.SlaveSelected?
    case Check => AtStage(m, Entered) && Top(m).vector < |m.routines|
    case HandlerDone => AtStage(m, Handling)
    case SendSlaveEoi => AtStage(m, SlaveEoiDue)
    case SendMasterEoi => AtStage(m, MasterEoiDue)
    case Iret => AtStage(m, Returning)
  }

  /** Second acknowledge pulse: an interrupt gate saves and clears IF. */
  function Deliver(m: Machine, vector: nat, genuine: bool): Machine {
    m.(frames := m.frames + [Frame(vector, genuine, 0, Entered, m.cpuIf)],
       cpuIf := false, ack := Idle, log := m.log + [Delivered(vector, genuine)])
  }

  /** First pulse: the master fixes its choice; with none it answers line 7. */
  function AcknowledgeMaster(m: Machine): Machine {
    var h := MasterChoice(m);
    if h == 8 then Deliver(m, m.master.base + 7, false)
    else if h == CASCADE then m.(master := m.master.(isr := m.master.isr + {h}), ack := SlaveSelected)
    else
      Deliver(m.(master := m.master.(isr := m.master.isr + {h}, irr := m.master.irr - {h})),
              m.master.base + h, true)
  }

  function AcknowledgeSlave(m: Machine): Machine {
    var g := SlaveChoice(m);
    if g == 8 then Deliver(m, m.slave.base + 7, false)
    else
      Deliver(m.(slave := m.slave.(isr := m.slave.isr + {g}, irr := m.slave.irr - {g})),
              m.slave.base + g, true)
  }

  function CallEvents(f: Frame): seq<Event> {
    if f.handler != 0 then [Called(f.vector, f.handler)] else []
  }

  /** Look the handler up, read both ISRs, and either leave or call the handler. */
  function CheckFrame(m: Machine): Machine
    requires m.frames != [] && Top(m).vector < |m.routines|
  {
    var f := Top(m);
    var f' := f.(handler := m.routines[f.vector], stage := AfterCheck(f.vector, IsrWord(m)));
    var selects := f.vector == IRQ7 || f.vector == IRQ15;
    SetTop(m, f').(
      master := if selects then WriteCommand(m.master, CMD_READ_ISR) else m.master,
      slave := if selects then WriteCommand(m.slave, CMD_READ_ISR) else m.slave,
      log := m.log + if f'.stage == Handling then CallEvents(f') else [])
  }

  function Next(m: Machine, st: Step): Machine
    requires Enabled(m, st)
  {
    match st
    case Raise(k) =>
      if k < 8 then m.(high := m.high + {k}, master := m.master.(irr := m.master.irr + {k}))
      else m.(high := m.high + {k}, slave := m.slave.(irr := m.slave.irr + {k - 8}))
    case Lower(k) =>
      if k < 8 then m.(high := m.high - {k}, master := m.master.(irr := m.master.irr - {k}))
      else m.(high := m.high - {k}, slave := m.slave.(irr := m.slave.irr - {k - 8}))
    case SetMasks(mm, sm) => m.(master := m.master.(imr := mm), slave := m.slave.(imr := sm))
    case SetIf(on) => m.(cpuIf := on)
    case Install(v, h) => m.(routines := m.routines[v := h])
    case Uninstall(v) => m.(routines := m.routines[v := 0])
    case Recognise => m.(ack := Sampled)
    case IntaMaster => AcknowledgeMaster(m)
    case IntaSlave => AcknowledgeSlave(m)
    case Check => CheckFrame(m)
    case HandlerDone => SetTop(m, Top(m).(stage := AfterHandler(Top(m).vector)))
    case SendSlaveEoi =>
      SetTop(m, Top(m).(stage := MasterEoiDue)).(
        slave := WriteCommand(m.slave, CMD_END_OF_INTERRUPT),
        log := m.log + [SlaveEoi(Highest(m.slave.isr))])
    case SendMasterEoi =>
      SetTop(m, Top(m).(stage := Returning)).(
        master := WriteCommand(m.master, CMD_END_OF_INTERRUPT),
        log := m.log + [MasterEoi(Highest(m.master.isr))])
    case Iret => m.(frames := Below(m), cpuIf := Top(m).savedIf, served := m.served + [Top(m)])
  }

  /** The state after a list of steps, or None if one of them was not enabled. */
  function Run(m: Machine, steps: seq<Step>): Option<Machine> {
    if steps == [] then Some(m)
    else
      match Run(m, steps[..|steps| - 1])
      case None => None
      case Some(s) =>
        var st := steps[|steps| - 1];
        if Enabled(s, st) then Some(Next(s, st)) else None
  }

  /** The state the kernel reaches before it first sets IF: bases installed, nothing in service.
      Handlers may be installed by then: kmain installs the timer's first. */
  ghost predicate Boot(m: Machine) {
    && m.master.phase.Ready? && m.slave.phase.Ready?
    && m.master.base == MASTER_BASE && m.slave.base == SLAVE_BASE
    && m.master.isr == {} && m.slave.isr == {}
    && !m.cpuIf && m.ack.Idle? && m.frames == [] && m.log == [] && m.served == []
    && |m.routines| == NUM_INTERRUPTS
  }
}
