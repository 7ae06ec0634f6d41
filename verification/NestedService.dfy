/** Nested service: what every reachable state of the interrupt path keeps when
    handlers may set IF again, and exactly when it is kept. */
module NestedService {
  import opened Pic8259
  import opened InterruptMachine

  ////////////////////////////////////////////////////////////////////////////
  // The lines a frame keeps in service
  ////////////////////////////////////////////////////////////////////////////

  /** The device line 0..15 a vector stands for. */
  function DeviceLine(f: Frame): int {
    f.vector - IRQ0
  }

  /** The master line a frame occupies: its own, or the cascade. */
  function MasterLine(f: Frame): Line {
    if IRQ0 <= f.vector < IRQ8 then f.vector - IRQ0 else CASCADE
  }

  predicate HoldsMaster(f: Frame) {
    && IRQ0 <= f.vector <= IRQ15
    && !f.stage.Returning?
    && (f.genuine || f.vector == IRQ15)
  }

  predicate HoldsSlave(f: Frame) {
    && IRQ8 <= f.vector <= IRQ15
    && f.genuine
    && (f.stage.Entered? || f.stage.Handling? || f.stage.SlaveEoiDue?)
  }

  ghost function MasterHeld(fs: seq<Frame>): set<Line> {
    if fs == [] then {}
    else
      var f := fs[|fs| - 1];
      MasterHeld(fs[..|fs| - 1]) + if HoldsMaster(f) then {MasterLine(f)} else {}
  }

  ghost function SlaveHeld(fs: seq<Frame>): set<Line> {
    if fs == [] then {}
    else
      var f := fs[|fs| - 1];
      SlaveHeld(fs[..|fs| - 1]) + if HoldsSlave(f) then {f.vector - IRQ8} else {}
  }

  /** Fully nested priority: 0, 1, 8..15, 3..7. */
  function Rank(line: int): int {
    if line < 2 then line else if line >= 8 then line - 6 else line + 7
  }

  ////////////////////////////////////////////////////////////////////////////
  // The invariant
  ////////////////////////////////////////////////////////////////////////////

  /** Only a genuine frame past its check can have IF set. */
  predicate Interruptible(f: Frame) {
    f.genuine && !f.stage.Entered?
  }

  predicate WellFormed(f: Frame) {
    && IRQ0 <= f.vector <= IRQ15 && f.vector != IRQ2
    && (!f.genuine ==>
          || (f.vector == IRQ7 && (f.stage.Entered? || f.stage.Returning?))
          || (f.vector == IRQ15 && (f.stage.Entered? || f.stage.MasterEoiDue? || f.stage.Returning?)))
    && (f.stage.SlaveEoiDue? ==> f.vector >= IRQ8)
  }

  /** Each frame outranks what lies below it, and a spurious IRQ7 about to be checked
      finds line 7 out of service. */
  ghost predicate Nested(fs: seq<Frame>) {
    fs == [] ||
    var f, below := fs[|fs| - 1], fs[..|fs| - 1];
    && Nested(below)
    && WellFormed(f)
    && (below != [] ==> Interruptible(below[|below| - 1]))
    && (HoldsMaster(f) ==> forall b :: b in MasterHeld(below) ==> MasterLine(f) < b)
    && (f.stage.Entered? && !f.genuine && f.vector == IRQ7 ==> 7 !in MasterHeld(below))
  }

  ghost predicate Inv(m: Machine) {
    && m.master.base == MASTER_BASE && m.slave.base == SLAVE_BASE
    && |m.routines| == NUM_INTERRUPTS
    && (!m.ack.Idle? ==> m.cpuIf)
    && (m.cpuIf && m.frames != [] ==> Interruptible(Top(m)))
    && (m.ack.SlaveSelected? ==> forall b :: b in MasterHeld(m.frames) ==> CASCADE < b)
    && m.master.isr == MasterHeld(m.frames) + (if m.ack.SlaveSelected? then {CASCADE} else {})
    && m.slave.isr == SlaveHeld(m.frames)
    && Nested(m.frames)
    && forall i :: 0 <= i < |m.frames| ==> m.frames[i].savedIf
  }

  /** An acknowledge that finds no request while a genuine IRQ7 is in service. */
  ghost predicate Clash(m: Machine, st: Step) {
    st.IntaMaster? && MasterChoice(m) == 8 && 7 in m.master.isr
  }

  ////////////////////////////////////////////////////////////////////////////
  // One step
  ////////////////////////////////////////////////////////////////////////////

  /** While the cascade line is free no slave line is in service. */
  lemma {:induction false} CascadeFree(fs: seq<Frame>)
    requires Nested(fs) && CASCADE !in MasterHeld(fs)
    ensures SlaveHeld(fs) == {}
  {
    if fs == [] {
    } else {
      CascadeFree(fs[..|fs| - 1]);
    }
  }

  lemma {:induction false} PushFrame(fs: seq<Frame>, f: Frame)
    ensures MasterHeld(fs + [f]) == MasterHeld(fs) + if HoldsMaster(f) then {MasterLine(f)} else {}
    ensures SlaveHeld(fs + [f]) == SlaveHeld(fs) + if HoldsSlave(f) then {f.vector - IRQ8} else {}
    ensures Nested(fs + [f]) <==>
      && Nested(fs)
      && WellFormed(f)
      && (fs != [] ==> Interruptible(fs[|fs| - 1]))
      && (HoldsMaster(f) ==> forall b :: b in MasterHeld(fs) ==> MasterLine(f) < b)
      && (f.stage.Entered? && !f.genuine && f.vector == IRQ7 ==> 7 !in MasterHeld(fs))
  {
  }

  lemma {:induction false} SplitTop(m: Machine)
    requires m.frames != []
    ensures Below(m) + [Top(m)] == m.frames
  {
  }

  lemma {:induction false} SpuriousMasterAcknowledge(m: Machine)
    requires Inv(m) && m.ack.Sampled? && MasterChoice(m) == 8
    ensures Inv(AcknowledgeMaster(m)) <==> 7 !in m.master.isr
  {
  }

  lemma {:induction false} CascadeAcknowledge(m: Machine)
    requires Inv(m) && m.ack.Sampled? && MasterChoice(m) == CASCADE
    ensures Inv(AcknowledgeMaster(m))
  {
  }

  /** A frame may enter on top of those it outranks, with the ISRs those of the frames. */
  lemma {:induction false} FrameEnters(m: Machine, n: Machine, f: Frame)
    requires Inv(m) && m.cpuIf
    requires f.stage.Entered? && f.savedIf && WellFormed(f)
    requires HoldsMaster(f) ==> forall b :: b in MasterHeld(m.frames) ==> MasterLine(f) < b
    requires !f.genuine && f.vector == IRQ7 ==> 7 !in MasterHeld(m.frames)
    requires n.frames == m.frames + [f] && n.ack.Idle? && !n.cpuIf
    requires n.master.base == m.master.base && n.slave.base == m.slave.base && n.routines == m.routines
    requires n.master.isr == MasterHeld(m.frames) + (if HoldsMaster(f) then {MasterLine(f)} else {})
    requires n.slave.isr == SlaveHeld(m.frames) + (if HoldsSlave(f) then {f.vector - IRQ8} else {})
    ensures Inv(n)
  {
    hide MasterHeld, SlaveHeld, WellFormed, Nested, HoldsMaster, HoldsSlave;
    PushFrame(m.frames, f);
  }

  lemma {:induction false} GenuineMasterAcknowledge(m: Machine)
    requires Inv(m) && m.ack.Sampled? && MasterChoice(m) < 8 && MasterChoice(m) != CASCADE
    ensures Inv(AcknowledgeMaster(m))
  {
    hide MasterHeld, SlaveHeld, Nested;
    var h: Line := MasterChoice(m);
    assert forall b :: b in m.master.isr ==> h < b;
    FrameEnters(m, AcknowledgeMaster(m), Frame(IRQ0 + h, true, 0, Entered, m.cpuIf));
  }

  /** The first acknowledge pulse keeps the invariant exactly when it does not clash. */
  lemma {:induction false} AcknowledgeMasterKeepsInv(m: Machine)
    requires Inv(m) && m.ack.Sampled?
    ensures Inv(AcknowledgeMaster(m)) <==> !Clash(m, IntaMaster)
  {
    if MasterChoice(m) == 8 {
      SpuriousMasterAcknowledge(m);
    } else if MasterChoice(m) == CASCADE {
      CascadeAcknowledge(m);
    } else {
      GenuineMasterAcknowledge(m);
    }
  }

  lemma {:induction false} AcknowledgeSlaveKeepsInv(m: Machine)
    requires Inv(m) && m.ack.SlaveSelected?
    ensures Inv(AcknowledgeSlave(m))
  {
    hide MasterHeld, SlaveHeld, Nested, SlaveChoice;
    CascadeFree(m.frames);
    var n := AcknowledgeSlave(m);
    FrameEnters(m, n, n.frames[|m.frames|]);
  }

  /** The check recognises exactly the spurious frames. */
  lemma {:induction false} CheckRecognisesSpurious(m: Machine)
    requires Inv(m) && AtStage(m, Entered)
    ensures AfterCheck(Top(m).vector, IsrWord(m)) ==
            if Top(m).genuine then Handling
            else if Top(m).vector == IRQ7 then Returning
            else MasterEoiDue
  {
    var f := Top(m);
    SplitTop(m);
    PushFrame(Below(m), f);
    StatusWordBits(m.master.isr, m.slave.isr);
    if f.vector == IRQ15 && !f.genuine {
      CascadeFree(Below(m));
    }
  }

  /** What the innermost frame holds, split off. */
  lemma {:induction false} TopHolds(m: Machine)
    requires Inv(m) && m.frames != [] && m.ack.Idle?
    ensures WellFormed(Top(m)) && (m.cpuIf ==> Interruptible(Top(m)))
    ensures m.master.isr ==
            MasterHeld(Below(m)) + (if HoldsMaster(Top(m)) then {MasterLine(Top(m))} else {})
    ensures m.slave.isr ==
            SlaveHeld(Below(m)) + (if HoldsSlave(Top(m)) then {Top(m).vector - IRQ8} else {})
  {
  }

  /** The innermost frame may become f in the dispatcher without a gap in the nesting. */
  lemma {:induction false} StaysNested(m: Machine, f: Frame)
    requires Inv(m) && m.frames != []
    requires WellFormed(f) && !f.stage.Entered? && f.savedIf
    requires f.vector == Top(m).vector && (HoldsMaster(f) ==> HoldsMaster(Top(m)))
    ensures var fs := Below(m) + [f];
      Nested(fs) && forall i :: 0 <= i < |fs| ==> fs[i].savedIf
  {
    hide MasterHeld, SlaveHeld, WellFormed;
    PushFrame(Below(m), f);
  }

  /** Moving the innermost frame on in the dispatcher keeps the invariant, with the ISRs those
      of the frames. */
  lemma {:induction false} TopMovesOn(m: Machine, n: Machine, f: Frame)
    requires Inv(m) && m.frames != [] && m.ack.Idle?
    requires WellFormed(f) && !f.stage.Entered? && f.savedIf
    requires f.vector == Top(m).vector && (HoldsMaster(f) ==> HoldsMaster(Top(m)))
    requires n.frames == Below(m) + [f] && n.ack.Idle? && (n.cpuIf ==> Interruptible(f))
    requires n.master.base == m.master.base && n.slave.base == m.slave.base && n.routines == m.routines
    requires n.master.isr == MasterHeld(Below(m)) + (if HoldsMaster(f) then {MasterLine(f)} else {})
    requires n.slave.isr == SlaveHeld(Below(m)) + (if HoldsSlave(f) then {f.vector - IRQ8} else {})
    ensures Inv(n)
  {
    hide MasterHeld, SlaveHeld, WellFormed, Nested;
    PushFrame(Below(m), f);
    StaysNested(m, f);
  }

  lemma {:induction false} TopSavedIf(m: Machine)
    requires Inv(m) && m.frames != []
    ensures Top(m).savedIf
  {
  }

  lemma {:induction false} CheckKeepsInv(m: Machine)
    requires Inv(m) && AtStage(m, Entered)
    ensures Inv(CheckFrame(m))
  {
    hide Inv, IsrWord, AfterCheck, WriteCommand, MasterHeld, SlaveHeld;
    CheckRecognisesSpurious(m);
    CommandEffects(m.master);
    CommandEffects(m.slave);
    TopHolds(m);
    TopSavedIf(m);
    TableIsWhole(m);
    TopMovesOn(m, CheckFrame(m), Top(CheckFrame(m)));
  }

  lemma {:induction false} TableIsWhole(m: Machine)
    requires Inv(m)
    ensures |m.routines| == NUM_INTERRUPTS
  {
  }

  /** The line a slave EOI retires is the finishing frame's own, the only one in service there. */
  lemma {:induction false} SlaveEoiRetiresOwnLine(m: Machine)
    requires Inv(m) && AtStage(m, SlaveEoiDue)
    ensures m.slave.isr == {DeviceLine(Top(m)) - 8}
    ensures Highest(m.slave.isr) == DeviceLine(Top(m)) - 8
    ensures EndOfInterrupt(m.slave.isr) == {}
    ensures Next(m, SendSlaveEoi).slave.isr == {}
    ensures SlaveHeld(Below(m)) == {} && CASCADE !in MasterHeld(Below(m))
  {
    CommandEffects(m.slave);
    SplitTop(m);
    PushFrame(Below(m), Top(m));
    CascadeFree(Below(m));
  }

  /** The line a master EOI retires is the finishing frame's, and what stays in service is
      what the interrupted frames hold. */
  lemma {:induction false} MasterEoiRetiresOwnLine(m: Machine)
    requires Inv(m) && AtStage(m, MasterEoiDue)
    ensures MasterLine(Top(m)) in m.master.isr
    ensures Highest(m.master.isr) == MasterLine(Top(m))
    ensures EndOfInterrupt(m.master.isr) == MasterHeld(Below(m)) == m.master.isr - {MasterLine(Top(m))}
    ensures Next(m, SendMasterEoi).master.isr == m.master.isr - {MasterLine(Top(m))}
  {
    CommandEffects(m.master);
    var f := Top(m);
    SplitTop(m);
    PushFrame(Below(m), f);
    assert MasterLine(f) !in MasterHeld(Below(m));
  }

  lemma {:induction false} HandlerDoneKeepsInv(m: Machine)
    requires Inv(m) && AtStage(m, Handling)
    ensures Inv(Next(m, HandlerDone))
  {
    hide Inv, MasterHeld, SlaveHeld;
    TopHolds(m);
    TopSavedIf(m);
    TopMovesOn(m, Next(m, HandlerDone), Top(m).(stage := AfterHandler(Top(m).vector)));
  }

  lemma {:induction false} SlaveEoiKeepsInv(m: Machine)
    requires Inv(m) && AtStage(m, SlaveEoiDue)
    ensures Inv(Next(m, SendSlaveEoi))
  {
    hide Inv, MasterHeld, SlaveHeld, EndOfInterrupt;
    TopHolds(m);
    TopSavedIf(m);
    SlaveEoiRetiresOwnLine(m);
    CommandEffects(m.slave);
    TopMovesOn(m, Next(m, SendSlaveEoi), Top(m).(stage := MasterEoiDue));
  }

  lemma {:induction false} MasterEoiKeepsInv(m: Machine)
    requires Inv(m) && AtStage(m, MasterEoiDue)
    ensures Inv(Next(m, SendMasterEoi))
  {
    hide Inv, MasterHeld, SlaveHeld, EndOfInterrupt;
    TopHolds(m);
    TopSavedIf(m);
    MasterEoiRetiresOwnLine(m);
    CommandEffects(m.master);
    TopMovesOn(m, Next(m, SendMasterEoi), Top(m).(stage := Returning));
  }

  lemma {:induction false} IretKeepsInv(m: Machine)
    requires Inv(m) && AtStage(m, Returning)
    ensures Inv(Next(m, Iret))
  {
  }

  /** The invariant survives a step if and only if the step is no clash. */
  lemma {:induction false} StepKeepsInv(m: Machine, st: Step)
    requires Inv(m) && Enabled(m, st)
    ensures Inv(Next(m, st)) <==> !Clash(m, st)
  {
    hide Inv, AcknowledgeMaster, AcknowledgeSlave, CheckFrame, MasterChoice, WriteCommand;
    match st
    case IntaMaster => AcknowledgeMasterKeepsInv(m);
    case IntaSlave => AcknowledgeSlaveKeepsInv(m);
    case Check => CheckKeepsInv(m);
    case HandlerDone => HandlerDoneKeepsInv(m);
    case SendSlaveEoi => SlaveEoiKeepsInv(m);
    case SendMasterEoi => MasterEoiKeepsInv(m);
    case Iret => IretKeepsInv(m);
    case _ => OtherStepKeepsInv(m, st);
  }

  /** Devices, masks, IF, the handler table and the sampling of INT touch no frame and no ISR. */
  lemma {:induction false} OtherStepKeepsInv(m: Machine, st: Step)
    requires Inv(m) && Enabled(m, st)
    requires st.Raise? || st.Lower? || st.SetMasks? || st.SetIf? || st.Install? || st.Uninstall? || st.Recognise?
    ensures Inv(Next(m, st))
  {
    hide MasterChoice, MasterHeld, SlaveHeld;
  }

  ////////////////////////////////////////////////////////////////////////////
  // Whole runs
  ////////////////////////////////////////////////////////////////////////////

  /** No step of the run is a clash. */
  ghost predicate ClashFree(m: Machine, steps: seq<Step>) {
    steps == [] ||
    var before := Run(m, steps[..|steps| - 1]);
    && ClashFree(m, steps[..|steps| - 1])
    && (before.Some? ==> !Clash(before.value, steps[|steps| - 1]))
  }

  /** Every state along the run satisfies the invariant. */
  ghost predicate InvThroughout(m: Machine, steps: seq<Step>) {
    && (Run(m, steps).Some? ==> Inv(Run(m, steps).value))
    && (steps != [] ==> InvThroughout(m, steps[..|steps| - 1]))
  }

  lemma {:induction false} BootSatisfiesInv(m: Machine)
    requires Boot(m)
    ensures Inv(m)
  {
  }

  /** Nested service over whole runs: from boot, with handlers free to set IF, the
      invariant holds at every state if and only if the run never acknowledges nothing
      while a genuine IRQ7 is in service. */
  lemma {:induction false} NestedServiceInvariant(m: Machine, steps: seq<Step>)
    requires Inv(m) && Run(m, steps).Some?
    ensures InvThroughout(m, steps) <==> ClashFree(m, steps)
  {
    if steps == [] {
    } else {
      var init := steps[..|steps| - 1];
      NestedServiceInvariant(m, init);
      if InvThroughout(m, init) {
        StepKeepsInv(Run(m, init).value, steps[|steps| - 1]);
      }
    }
  }

  lemma {:induction false} ReachableIsInv(m: Machine, steps: seq<Step>)
    requires Inv(m) && Run(m, steps).Some? && ClashFree(m, steps)
    ensures Inv(Run(m, steps).value)
  {
    NestedServiceInvariant(m, steps);
  }

  ////////////////////////////////////////////////////////////////////////////
  // What the invariant says of a reachable state
  ////////////////////////////////////////////////////////////////////////////

  lemma {:induction false} HeldMembers(fs: seq<Frame>)
    ensures forall b :: b in MasterHeld(fs) <==>
      exists i :: 0 <= i < |fs| && HoldsMaster(fs[i]) && MasterLine(fs[i]) == b
    ensures forall b :: b in SlaveHeld(fs) <==>
      exists i :: 0 <= i < |fs| && HoldsSlave(fs[i]) && fs[i].vector - IRQ8 == b
  {
    if fs == [] {
    } else {
      var below := fs[..|fs| - 1];
      HeldMembers(below);
      forall i | 0 <= i < |below| ensures below[i] == fs[i] { }
      var f := fs[|fs| - 1];
      if HoldsMaster(f) {
        assert MasterLine(f) in MasterHeld(fs);
      }
    }
  }

  /** The two ISRs are exactly the lines of the frames that still owe an EOI. */
  lemma {:induction false} IsrsAreTheOpenFrames(m: Machine)
    requires Inv(m)
    ensures forall b: Line :: b in m.master.isr <==>
      || (m.ack.SlaveSelected? && b == CASCADE)
      || exists i :: 0 <= i < |m.frames| && HoldsMaster(m.frames[i]) && MasterLine(m.frames[i]) == b
    ensures forall b: Line :: b in m.slave.isr <==>
      exists i :: 0 <= i < |m.frames| && HoldsSlave(m.frames[i]) && m.frames[i].vector - IRQ8 == b
  {
    HeldMembers(m.frames);
  }

  /** Frames that still owe an EOI are strictly ordered by fully nested priority. */
  lemma {:induction false} OpenFramesAreOrdered(fs: seq<Frame>, i: nat, j: nat)
    requires Nested(fs) && i < j < |fs|
    requires HoldsMaster(fs[i]) && HoldsMaster(fs[j])
    ensures Rank(DeviceLine(fs[j])) < Rank(DeviceLine(fs[i]))
    ensures MasterLine(fs[j]) < MasterLine(fs[i])
  {
    var below := fs[..|fs| - 1];
    if j < |fs| - 1 {
      assert fs[i] == below[i] && fs[j] == below[j];
      OpenFramesAreOrdered(below, i, j);
    } else {
      HeldMembers(below);
      assert below[i] == fs[i];
      assert MasterLine(fs[i]) in MasterHeld(below);
      WellFormedThroughout(fs, i);
      WellFormedThroughout(fs, j);
    }
  }

  lemma {:induction false} WellFormedThroughout(fs: seq<Frame>, i: nat)
    requires Nested(fs) && i < |fs|
    ensures WellFormed(fs[i])
    ensures i < |fs| - 1 ==> Interruptible(fs[i])
  {
    var below := fs[..|fs| - 1];
    if i >= |below| {
    } else {
      assert fs[i] == below[i];
      WellFormedThroughout(below, i);
    }
  }

  /** After every clash-free run from boot the open frames are in priority order. */
  lemma {:induction false} ReachableFramesAreOrdered(boot: Machine, steps: seq<Step>, i: nat, j: nat)
    requires Boot(boot) && Run(boot, steps).Some? && ClashFree(boot, steps)
    requires i < j < |Run(boot, steps).value.frames|
    requires HoldsMaster(Run(boot, steps).value.frames[i]) && HoldsMaster(Run(boot, steps).value.frames[j])
    ensures Rank(DeviceLine(Run(boot, steps).value.frames[j])) < Rank(DeviceLine(Run(boot, steps).value.frames[i]))
  {
    BootSatisfiesInv(boot);
    ReachableIsInv(boot, steps);
    OpenFramesAreOrdered(Run(boot, steps).value.frames, i, j);
  }

  /** After every clash-free run from boot a non-specific EOI retires the finishing frame's
      line and no other. */
  lemma {:induction false} ReachableSlaveEoiIsExact(boot: Machine, steps: seq<Step>)
    requires Boot(boot) && Run(boot, steps).Some? && ClashFree(boot, steps)
    requires AtStage(Run(boot, steps).value, SlaveEoiDue)
    ensures var m := Run(boot, steps).value;
      m.slave.isr == {DeviceLine(Top(m)) - 8} && Next(m, SendSlaveEoi).slave.isr == {}
  {
    BootSatisfiesInv(boot);
    ReachableIsInv(boot, steps);
    SlaveEoiRetiresOwnLine(Run(boot, steps).value);
  }

  lemma {:induction false} ReachableMasterEoiIsExact(boot: Machine, steps: seq<Step>)
    requires Boot(boot) && Run(boot, steps).Some? && ClashFree(boot, steps)
    requires AtStage(Run(boot, steps).value, MasterEoiDue)
    ensures var m := Run(boot, steps).value;
      var own := MasterLine(Top(m));
      own in m.master.isr && Next(m, SendMasterEoi).master.isr == m.master.isr - {own}
  {
    BootSatisfiesInv(boot);
    ReachableIsInv(boot, steps);
    MasterEoiRetiresOwnLine(Run(boot, steps).value);
  }

  ////////////////////////////////////////////////////////////////////////////
  // A complete service leaves the in-service state as it found it
  ////////////////////////////////////////////////////////////////////////////

  /** Until the last step of the run, an acknowledge is under way or a frame above depth d exists. */
  ghost predicate InService(m: Machine, steps: seq<Step>, d: nat) {
    steps == [] ||
    var before := Run(m, steps[..|steps| - 1]);
    && InService(m, steps[..|steps| - 1], d)
    && (before.Some? ==> !before.value.ack.Idle? || |before.value.frames| > d)
  }

  /** A step leaves every frame under the innermost alone, and during an acknowledge all frames. */
  lemma {:induction false} StepTouchesTopOnly(m: Machine, st: Step)
    requires Enabled(m, st)
    ensures m.frames == [] || !m.ack.Idle? ==> m.frames <= Next(m, st).frames
    ensures m.frames != [] ==> Below(m) <= Next(m, st).frames
  {
  }

  lemma {:induction false} FramesBelowUntouched(m: Machine, steps: seq<Step>)
    requires Run(m, steps).Some? && InService(m, steps, |m.frames|)
    ensures |Run(m, steps).value.frames| >= |m.frames|
    ensures Run(m, steps).value.frames[..|m.frames|] == m.frames
  {
    if steps == [] {
    } else {
      var init := steps[..|steps| - 1];
      FramesBelowUntouched(m, init);
      StepTouchesTopOnly(Run(m, init).value, steps[|steps| - 1]);
    }
  }

  /** From the moment INT is sampled to the return to the same depth, whatever nests in
      between and whether the interrupt was genuine or spurious, both ISRs come back. */
  lemma {:induction false} ServiceRestoresInServiceState(m: Machine, steps: seq<Step>)
    requires Inv(m) && m.ack.Sampled?
    requires Run(m, steps).Some? && ClashFree(m, steps) && InService(m, steps, |m.frames|)
    requires Run(m, steps).value.ack.Idle? && |Run(m, steps).value.frames| == |m.frames|
    ensures var s := Run(m, steps).value;
      s.master.isr == m.master.isr && s.slave.isr == m.slave.isr && s.frames == m.frames
  {
    var s := Run(m, steps).value;
    FramesBelowUntouched(m, steps);
    assert s.frames[..|m.frames|] == s.frames;
    ReachableIsInv(m, steps);
  }
}
