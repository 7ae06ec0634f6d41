/** Un-nested service: handlers leave IF as the 0x8E gates set it.  Nothing is assumed of
    the lines, so spurious interrupts may come at any acknowledge. */
module UnnestedService {
  import opened Pic8259
  import opened InterruptMachine
  import opened NestedService

  /** The events a frame has caused when it is where it is. */
  function FrameLog(f: Frame): seq<Event> {
    [Delivered(f.vector, f.genuine)]
    + (if f.genuine && !f.stage.Entered? then CallEvents(f) else [])
    + (if f.genuine && f.vector >= IRQ8 && (f.stage.MasterEoiDue? || f.stage.Returning?)
       then [SlaveEoi(f.vector - IRQ8)] else [])
    + (if f.stage.Returning? && (f.genuine || f.vector == IRQ15)
       then [MasterEoi(MasterLine(f))] else [])
  }

  function FullLog(served: seq<Frame>): seq<Event> {
    if served == [] then []
    else FullLog(served[..|served| - 1]) + FrameLog(served[|served| - 1])
  }

  /** No handler turns IF on. */
  ghost predicate HandlersLeaveIfClear(m: Machine, steps: seq<Step>) {
    steps == [] ||
    var before := Run(m, steps[..|steps| - 1]);
    && HandlersLeaveIfClear(m, steps[..|steps| - 1])
    && (before.Some? && steps[|steps| - 1] == SetIf(true) ==> before.value.frames == [])
  }

  /** At most one frame, IF clear under it, and a log made of whole services and the current one. */
  ghost predicate OneAtATime(m: Machine) {
    && |m.frames| <= 1
    && (m.frames != [] ==> !m.cpuIf)
    && m.log == FullLog(m.served) + (if m.frames == [] then [] else FrameLog(Top(m)))
    && forall i :: 0 <= i < |m.served| ==> m.served[i].stage.Returning? && WellFormed(m.served[i])
  }

  ghost predicate Flat(m: Machine) {
    Inv(m) && OneAtATime(m)
  }

  lemma {:induction false} NothingInService(m: Machine)
    requires Inv(m) && m.frames == [] && !m.ack.SlaveSelected?
    ensures m.master.isr == {} && m.slave.isr == {}
  {
  }

  lemma {:induction false} TopIsWellFormed(m: Machine)
    requires Inv(m) && m.frames != []
    ensures WellFormed(Top(m))
  {
  }

  lemma {:induction false} AcknowledgeStep(m: Machine, st: Step)
    requires OneAtATime(m) && Enabled(m, st) && (st.IntaMaster? || st.IntaSlave?)
    requires m.frames == []
    ensures OneAtATime(Next(m, st))
  {
    hide MasterChoice, SlaveChoice, FullLog, WellFormed;
    var n := Next(m, st);
    assert n.served == m.served;
    if n.frames != [] {
      assert n.frames == [Top(n)] && Top(n).stage == Entered && !n.cpuIf;
      assert n.log == m.log + FrameLog(Top(n));
    }
  }

  /** A dispatcher step that moves the only frame on and logs what that stage adds. */
  lemma {:induction false} DispatcherStep(m: Machine, n: Machine, f: Frame, events: seq<Event>)
    requires OneAtATime(m) && m.frames != []
    requires n.frames == Below(m) + [f] && n.cpuIf == m.cpuIf && n.served == m.served
    requires n.log == m.log + events && FrameLog(f) == FrameLog(Top(m)) + events
    ensures OneAtATime(n)
  {
    assert FullLog(m.served) + (FrameLog(Top(m)) + events) == m.log + events;
  }

  lemma {:induction false} CheckStep(m: Machine)
    requires Flat(m) && AtStage(m, Entered)
    ensures OneAtATime(CheckFrame(m))
  {
    var n := CheckFrame(m);
    CheckRecognisesSpurious(m);
    TopIsWellFormed(m);
    var f := Top(n);
    DispatcherStep(m, n, f, if f.genuine then CallEvents(f) else []);
  }

  lemma {:induction false} HandlerDoneStep(m: Machine)
    requires OneAtATime(m) && AtStage(m, Handling) && WellFormed(Top(m))
    ensures OneAtATime(Next(m, HandlerDone))
  {
  }

  lemma {:induction false} SlaveEoiStep(m: Machine)
    requires OneAtATime(m) && AtStage(m, SlaveEoiDue) && WellFormed(Top(m))
    requires Highest(m.slave.isr) == Top(m).vector - IRQ8
    ensures OneAtATime(Next(m, SendSlaveEoi))
  {
    DispatcherStep(m, Next(m, SendSlaveEoi), Top(Next(m, SendSlaveEoi)),
                   [SlaveEoi(Top(m).vector - IRQ8)]);
  }

  lemma {:induction false} MasterEoiStep(m: Machine)
    requires OneAtATime(m) && AtStage(m, MasterEoiDue) && WellFormed(Top(m))
    requires Highest(m.master.isr) == MasterLine(Top(m))
    ensures OneAtATime(Next(m, SendMasterEoi))
  {
    DispatcherStep(m, Next(m, SendMasterEoi), Top(Next(m, SendMasterEoi)), [MasterEoi(MasterLine(Top(m)))]);
  }

  lemma {:induction false} IretStep(m: Machine)
    requires OneAtATime(m) && AtStage(m, Returning) && WellFormed(Top(m))
    ensures OneAtATime(Next(m, Iret))
  {
    hide FrameLog, WellFormed;
    var n := Next(m, Iret);
    assert n.frames == [] && n.log == m.log && n.served == m.served + [Top(m)];
    assert n.served[..|n.served| - 1] == m.served;
    assert FullLog(n.served) == FullLog(m.served) + FrameLog(Top(m));
    assert n.log == FullLog(n.served) + [];
  }

  lemma {:induction false} OtherSteps(m: Machine, st: Step)
    requires OneAtATime(m) && Enabled(m, st)
    requires st == SetIf(true) ==> m.frames == []
    requires st.Raise? || st.Lower? || st.SetMasks? || st.SetIf? || st.Install? || st.Uninstall? || st.Recognise?
    ensures OneAtATime(Next(m, st))
  {
    hide FullLog, FrameLog, WellFormed, MasterChoice;
    var n := Next(m, st);
    assert n.frames == m.frames && n.log == m.log && n.served == m.served;
  }

  lemma {:induction false} AcknowledgeFindsNoFrame(m: Machine)
    requires Flat(m) && !m.ack.Idle?
    ensures m.frames == []
  {
  }

  lemma {:induction false} OneAtATimeStep(m: Machine, st: Step)
    requires Flat(m) && Enabled(m, st)
    requires st == SetIf(true) ==> m.frames == []
    ensures OneAtATime(Next(m, st))
  {
    if m.frames != [] {
      TopIsWellFormed(m);
    }
    match st
    case IntaMaster => AcknowledgeFindsNoFrame(m); AcknowledgeStep(m, st);
    case IntaSlave => AcknowledgeFindsNoFrame(m); AcknowledgeStep(m, st);
    case Check => CheckStep(m);
    case HandlerDone => HandlerDoneStep(m);
    case SendSlaveEoi => SlaveEoiRetiresOwnLine(m); SlaveEoiStep(m);
    case SendMasterEoi => MasterEoiRetiresOwnLine(m); MasterEoiStep(m);
    case Iret => IretStep(m);
    case _ => OtherSteps(m, st);
  }

  lemma {:induction false} FlatStep(m: Machine, st: Step)
    requires Flat(m) && Enabled(m, st)
    requires st == SetIf(true) ==> m.frames == []
    ensures Flat(Next(m, st))
  {
    OneAtATimeStep(m, st);
    StepKeepsInv(m, st);
    if st.IntaMaster? {
      AcknowledgeFindsNoFrame(m);
      NothingInService(m);
    }
  }

  /** Un-nested service over whole runs, with no assumption on the lines. */
  lemma {:induction false} UnnestedServiceInvariant(boot: Machine, steps: seq<Step>)
    requires Boot(boot) && Run(boot, steps).Some? && HandlersLeaveIfClear(boot, steps)
    ensures Flat(Run(boot, steps).value)
  {
    if steps == [] {
      BootSatisfiesInv(boot);
    } else {
      var init := steps[..|steps| - 1];
      UnnestedServiceInvariant(boot, init);
      FlatStep(Run(boot, init).value, steps[|steps| - 1]);
    }
  }

  /** With no frame active both ISRs are empty; the one exception is master line 2 between
      the two acknowledge pulses of a slave interrupt. */
  lemma {:induction false} IdleMeansNothingInService(boot: Machine, steps: seq<Step>)
    requires Boot(boot) && Run(boot, steps).Some? && HandlersLeaveIfClear(boot, steps)
    requires Run(boot, steps).value.frames == []
    ensures var m := Run(boot, steps).value;
      m.slave.isr == {} && m.master.isr == if m.ack.SlaveSelected? then {CASCADE} else {}
  {
    UnnestedServiceInvariant(boot, steps);
  }

  /** What each finished service did: a genuine one called the handler it looked up, if any,
      and ended its own line on every controller; a spurious IRQ7 did nothing; a spurious
      IRQ15 ended the cascade line only. */
  lemma {:induction false} ServicesInTheLog(boot: Machine, steps: seq<Step>, i: nat)
    requires Boot(boot) && Run(boot, steps).Some? && HandlersLeaveIfClear(boot, steps)
    requires Run(boot, steps).value.frames == [] && i < |Run(boot, steps).value.served|
    ensures Run(boot, steps).value.log == FullLog(Run(boot, steps).value.served)
    ensures WellFormed(Run(boot, steps).value.served[i])
    ensures var f := Run(boot, steps).value.served[i];
      FrameLog(f) ==
        if !f.genuine && f.vector == IRQ7 then [Delivered(IRQ7, false)]
        else if !f.genuine then [Delivered(IRQ15, false), MasterEoi(CASCADE)]
        else if f.vector < IRQ8 then
          [Delivered(f.vector, true)] + CallEvents(f) + [MasterEoi(f.vector - IRQ0)]
        else
          [Delivered(f.vector, true)] + CallEvents(f) + [SlaveEoi(f.vector - IRQ8), MasterEoi(CASCADE)]
  {
    UnnestedServiceInvariant(boot, steps);
    var f := Run(boot, steps).value.served[i];
    assert WellFormed(f) && f.stage.Returning?;
  }
}
