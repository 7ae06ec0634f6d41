/** End to end: from a device line to the call of the handler last installed for it. */
module Dispatch {
  import opened Basics
  import opened Pic8259
  import opened InterruptMachine
  import opened NestedService
  import opened DeviceLines
  import InterruptKernel
  import StubFrames

  /** The handler the last install or uninstall of vector v left, `first` before them all. */
  function LastInstalled(first: nat, steps: seq<Step>, v: nat): nat {
    if steps == [] then first
    else
      match steps[|steps| - 1]
      case Install(w, h) => if w == v then h else LastInstalled(first, steps[..|steps| - 1], v)
      case Uninstall(w) => if w == v then 0 else LastInstalled(first, steps[..|steps| - 1], v)
      case _ => LastInstalled(first, steps[..|steps| - 1], v)
  }

  lemma {:induction false} StepKeepsOtherRoutines(m: Machine, st: Step)
    requires Enabled(m, st) && !st.Install? && !st.Uninstall?
    ensures Next(m, st).routines == m.routines
  {
  }

  /** The table a run leaves holds the last handler installed for every vector. */
  lemma {:induction false} TableReplaysInstalls(boot: Machine, steps: seq<Step>, v: nat)
    requires Boot(boot) && Run(boot, steps).Some? && v < NUM_INTERRUPTS
    ensures |Run(boot, steps).value.routines| == NUM_INTERRUPTS
    ensures Run(boot, steps).value.routines[v] == LastInstalled(boot.routines[v], steps, v)
  {
    if steps == [] {
    } else {
      var init, st := steps[..|steps| - 1], steps[|steps| - 1];
      TableReplaysInstalls(boot, init, v);
      if !st.Install? && !st.Uninstall? {
        StepKeepsOtherRoutines(Run(boot, init).value, st);
      }
    }
  }

  /** No step of the list installs or uninstalls anything for v. */
  predicate LeavesAlone(steps: seq<Step>, v: nat) {
    forall st :: st in steps ==>
      (st.Install? ==> st.index != v) && (st.Uninstall? ==> st.index != v)
  }

  lemma {:induction false} LastInstalledLasts(first: nat, steps: seq<Step>, more: seq<Step>, v: nat)
    requires LeavesAlone(more, v)
    ensures LastInstalled(first, steps + more, v) == LastInstalled(first, steps, v)
  {
    if more == [] {
      assert steps + more == steps;
    } else {
      var init := more[..|more| - 1];
      assert (steps + more)[..|steps + more| - 1] == steps + init;
      assert more[|more| - 1] in more;
      LastInstalledLasts(first, steps, init, v);
    }
  }

  /** A call of Install_Interrupt_Handler is an install step (Kernel.InstallHandler), and the
      handler stays in the table until the next install or uninstall of its vector, whatever
      else the run does; other vectors are as before. */
  lemma {:induction false} InstallLasts(boot: Machine, steps: seq<Step>, v: nat, h: nat, more: seq<Step>)
    requires Boot(boot) && v < NUM_INTERRUPTS && Run(boot, steps + [Install(v, h)] + more).Some?
    ensures |Run(boot, steps + [Install(v, h)] + more).value.routines| == NUM_INTERRUPTS
    ensures LeavesAlone(more, v) ==> Run(boot, steps + [Install(v, h)] + more).value.routines[v] == h
    ensures forall w :: 0 <= w < NUM_INTERRUPTS && w != v && LeavesAlone(more, w) ==>
      Run(boot, steps + [Install(v, h)] + more).value.routines[w] == LastInstalled(boot.routines[w], steps, w)
  {
    LastsInTable(boot, steps, Install(v, h), more, v, h);
  }

  /** The same of Uninstall_Interrupt_Handler, which leaves null. */
  lemma {:induction false} UninstallLasts(boot: Machine, steps: seq<Step>, v: nat, more: seq<Step>)
    requires Boot(boot) && v < NUM_INTERRUPTS && Run(boot, steps + [Uninstall(v)] + more).Some?
    ensures |Run(boot, steps + [Uninstall(v)] + more).value.routines| == NUM_INTERRUPTS
    ensures LeavesAlone(more, v) ==> Run(boot, steps + [Uninstall(v)] + more).value.routines[v] == 0
    ensures forall w :: 0 <= w < NUM_INTERRUPTS && w != v && LeavesAlone(more, w) ==>
      Run(boot, steps + [Uninstall(v)] + more).value.routines[w] == LastInstalled(boot.routines[w], steps, w)
  {
    LastsInTable(boot, steps, Uninstall(v), more, v, 0);
  }

  lemma {:induction false} LastsInTable(boot: Machine, steps: seq<Step>, st: Step, more: seq<Step>, v: nat, h: nat)
    requires st == Install(v, h) || (st == Uninstall(v) && h == 0)
    requires Boot(boot) && v < NUM_INTERRUPTS && Run(boot, steps + [st] + more).Some?
    ensures |Run(boot, steps + [st] + more).value.routines| == NUM_INTERRUPTS
    ensures forall w :: 0 <= w < NUM_INTERRUPTS && LeavesAlone(more, w) ==>
      Run(boot, steps + [st] + more).value.routines[w] ==
        if w == v then h else LastInstalled(boot.routines[w], steps, w)
  {
    hide Run, LeavesAlone;
    TableReplaysInstalls(boot, steps + [st] + more, v);
    assert (steps + [st])[..|steps|] == steps;
    forall w: nat | w < NUM_INTERRUPTS && LeavesAlone(more, w)
      ensures Run(boot, steps + [st] + more).value.routines[w] ==
        if w == v then h else LastInstalled(boot.routines[w], steps, w)
    {
      TableReplaysInstalls(boot, steps + [st] + more, w);
      LastInstalledLasts(boot.routines[w], steps + [st], more, w);
    }
  }

  /** An acknowledge that puts a frame on the stack for line k, genuinely, found line k
      requested and idle, and took the request into service under vector 32 + k. */
  lemma {:induction false} DeliveryNamesItsLine(m: Machine, st: Step)
    requires Inv(m) && Enabled(m, st) && (st.IntaMaster? || st.IntaSlave?)
    requires |Next(m, st).frames| == |m.frames| + 1 && Top(Next(m, st)).genuine
    ensures var n := Next(m, st);
      var k := DeviceLine(Top(n));
      && Top(n).vector == IRQ0 + k && k != CASCADE
      && Requested(m, k) && !LineInService(m, k)
      && LineInService(n, k) && !Requested(n, k)
      && !n.cpuIf
  {
  }

  ////////////////////////////////////////////////////////////////////////////
  // One frame per delivery, one call per genuine frame
  ////////////////////////////////////////////////////////////////////////////

  function Only(e: Event, wanted: bool): multiset<Event> {
    if wanted then multiset{e} else multiset{}
  }

  /** The handler calls in a log. */
  function CallsIn(log: seq<Event>): multiset<Event> {
    if log == [] then multiset{}
    else
      var e := log[|log| - 1];
      CallsIn(log[..|log| - 1]) + Only(e, e.Called?)
  }

  /** The deliveries in a log. */
  function DeliveriesIn(log: seq<Event>): multiset<Event> {
    if log == [] then multiset{}
    else
      var e := log[|log| - 1];
      DeliveriesIn(log[..|log| - 1]) + Only(e, e.Delivered?)
  }

  /** The call a frame has to its name: one if it is genuine, past the check, and the handler
      it looked up is not null. */
  function CallDue(f: Frame): multiset<Event> {
    Only(Called(f.vector, f.handler), f.genuine && !f.stage.Entered? && f.handler != 0)
  }

  function CallsDue(fs: seq<Frame>): multiset<Event> {
    if fs == [] then multiset{} else CallsDue(fs[..|fs| - 1]) + CallDue(fs[|fs| - 1])
  }

  /** The delivery of each frame. */
  function DeliveriesOf(fs: seq<Frame>): multiset<Event> {
    if fs == [] then multiset{}
    else
      var f := fs[|fs| - 1];
      DeliveriesOf(fs[..|fs| - 1]) + multiset{Delivered(f.vector, f.genuine)}
  }

  /** Every delivery is of a frame on the stack or served, and the calls are those frames'. */
  ghost predicate Accounted(m: Machine) {
    && DeliveriesIn(m.log) == DeliveriesOf(m.served) + DeliveriesOf(m.frames)
    && CallsIn(m.log) == CallsDue(m.served) + CallsDue(m.frames)
  }

  lemma {:induction false} LogOne(log: seq<Event>, e: Event)
    ensures CallsIn(log + [e]) == CallsIn(log) + Only(e, e.Called?)
    ensures DeliveriesIn(log + [e]) == DeliveriesIn(log) + Only(e, e.Delivered?)
  {
    assert (log + [e])[..|log|] == log;
  }

  lemma {:induction false} FrameOne(fs: seq<Frame>, f: Frame)
    ensures CallsDue(fs + [f]) == CallsDue(fs) + CallDue(f)
    ensures DeliveriesOf(fs + [f]) == DeliveriesOf(fs) + multiset{Delivered(f.vector, f.genuine)}
  {
    assert (fs + [f])[..|fs|] == fs;
  }

  lemma {:induction false} DeliveryIsAccounted(m: Machine, n: Machine, vector: nat, genuine: bool)
    requires Accounted(m) && n.served == m.served
    requires n.frames == m.frames + [Frame(vector, genuine, 0, Entered, m.cpuIf)]
    requires n.log == m.log + [Delivered(vector, genuine)]
    ensures Accounted(n)
  {
    hide CallsIn, DeliveriesIn, CallsDue, DeliveriesOf;
    LogOne(m.log, Delivered(vector, genuine));
    FrameOne(m.frames, Frame(vector, genuine, 0, Entered, m.cpuIf));
  }

  /** The innermost frame moves on, and what it logs is what it now has to its name besides. */
  lemma {:induction false} MoveIsAccounted(m: Machine, n: Machine, f: Frame, calls: multiset<Event>)
    requires Accounted(m) && n.served == m.served && m.frames != [] && n.frames == Below(m) + [f]
    requires f.vector == Top(m).vector && f.genuine == Top(m).genuine
    requires DeliveriesIn(n.log) == DeliveriesIn(m.log)
    requires CallsIn(n.log) == CallsIn(m.log) + calls && CallDue(f) == CallDue(Top(m)) + calls
    ensures Accounted(n)
  {
    hide CallsIn, DeliveriesIn, CallsDue, DeliveriesOf, CallDue;
    SplitTop(m);
    FrameOne(Below(m), Top(m));
    FrameOne(Below(m), f);
  }

  lemma {:induction false} AcknowledgeIsAccounted(m: Machine, st: Step)
    requires Accounted(m) && Enabled(m, st) && (st.IntaMaster? || st.IntaSlave?)
    ensures Accounted(Next(m, st))
  {
    hide Accounted, MasterChoice, SlaveChoice;
    var n := Next(m, st);
    if n.frames != m.frames {
      var f := n.frames[|m.frames|];
      assert n.log == m.log + [Delivered(f.vector, f.genuine)];
      DeliveryIsAccounted(m, n, f.vector, f.genuine);
    } else {
      SameIsAccounted(m, n);
    }
  }

  lemma {:induction false} SameIsAccounted(m: Machine, n: Machine)
    requires Accounted(m) && n.log == m.log && n.frames == m.frames && n.served == m.served
    ensures Accounted(n)
  {
  }

  lemma {:induction false} CheckIsAccounted(m: Machine)
    requires Inv(m) && Accounted(m) && Enabled(m, Check)
    ensures Accounted(Next(m, Check))
  {
    hide Accounted, CallsIn, DeliveriesIn, Inv, IsrWord, AfterCheck;
    var n := Next(m, Check);
    CheckRecognisesSpurious(m);
    var f := Top(n);
    if f.stage == Handling && f.handler != 0 {
      LogOne(m.log, Called(f.vector, f.handler));
    } else {
      assert n.log == m.log;
    }
    assert CallDue(Top(m)) == multiset{};
    MoveIsAccounted(m, n, f, CallDue(f));
  }

  lemma {:induction false} DispatcherStepIsAccounted(m: Machine, st: Step)
    requires Accounted(m) && Enabled(m, st)
    requires st.HandlerDone? || st.SendSlaveEoi? || st.SendMasterEoi?
    ensures Accounted(Next(m, st))
  {
    hide Accounted, CallsIn, DeliveriesIn, Highest, WriteCommand;
    var n := Next(m, st);
    var e := if st.SendSlaveEoi? then SlaveEoi(Highest(m.slave.isr)) else MasterEoi(Highest(m.master.isr));
    assert n.log == if st.HandlerDone? then m.log else m.log + [e];
    LogOne(m.log, e);
    assert Top(n) == Top(m).(stage := Top(n).stage) && !Top(n).stage.Entered?;
    MoveIsAccounted(m, n, Top(n), multiset{});
  }

  lemma {:induction false} IretIsAccounted(m: Machine)
    requires Accounted(m) && Enabled(m, Iret)
    ensures Accounted(Next(m, Iret))
  {
    hide CallsIn, DeliveriesIn, CallsDue, DeliveriesOf, CallDue;
    SplitTop(m);
    FrameOne(Below(m), Top(m));
    FrameOne(m.served, Top(m));
  }

  lemma {:induction false} StepIsAccounted(m: Machine, st: Step)
    requires Inv(m) && Accounted(m) && Enabled(m, st)
    ensures Accounted(Next(m, st))
  {
    hide Accounted, Inv, AcknowledgeMaster, AcknowledgeSlave, CheckFrame;
    match st
    case IntaMaster => AcknowledgeIsAccounted(m, st);
    case IntaSlave => AcknowledgeIsAccounted(m, st);
    case Check => CheckIsAccounted(m);
    case HandlerDone => DispatcherStepIsAccounted(m, st);
    case SendSlaveEoi => DispatcherStepIsAccounted(m, st);
    case SendMasterEoi => DispatcherStepIsAccounted(m, st);
    case Iret => IretIsAccounted(m);
    case _ => SameIsAccounted(m, Next(m, st));
  }

  /** Over every clash-free run from boot, handlers free to set IF: the deliveries are the
      frames', one each, and the handler calls are one for each genuine frame past its check
      that found a handler, and no other. */
  lemma {:induction false} OneCallPerGenuineFrame(boot: Machine, steps: seq<Step>)
    requires Boot(boot) && Run(boot, steps).Some? && ClashFree(boot, steps)
    ensures Accounted(Run(boot, steps).value)
  {
    if steps == [] {
    } else {
      var init, st := steps[..|steps| - 1], steps[|steps| - 1];
      OneCallPerGenuineFrame(boot, init);
      BootSatisfiesInv(boot);
      ReachableIsInv(boot, init);
      StepIsAccounted(Run(boot, init).value, st);
    }
  }

  ////////////////////////////////////////////////////////////////////////////
  // Which handler
  ////////////////////////////////////////////////////////////////////////////

  /** Step c of the run is this frame's check, and the handler it carries is the one last
      installed for its vector before that step. */
  ghost predicate LookedUpAt(boot: Machine, steps: seq<Step>, c: nat, f: Frame) {
    && c < |steps| && steps[c] == Check && Run(boot, steps[..c]).Some?
    && AtStage(Run(boot, steps[..c]).value, Entered)
    && Top(Run(boot, steps[..c]).value).vector == f.vector
    && Top(Run(boot, steps[..c]).value).genuine == f.genuine
    && f.vector < |boot.routines| && f.handler == LastInstalled(boot.routines[f.vector], steps[..c], f.vector)
  }

  ghost predicate LookedUp(boot: Machine, steps: seq<Step>, f: Frame) {
    exists c: nat :: LookedUpAt(boot, steps, c, f)
  }

  /** Every frame past its check carries the handler last installed at its check; the served
      ones all are past it. */
  ghost predicate HandlersLookedUp(boot: Machine, steps: seq<Step>, m: Machine) {
    && (forall f :: f in m.frames && !f.stage.Entered? ==> LookedUp(boot, steps, f))
    && forall f :: f in m.served ==> !f.stage.Entered? && LookedUp(boot, steps, f)
  }

  lemma {:induction false} LookedUpBefore(boot: Machine, steps: seq<Step>, st: Step, f: Frame)
    requires LookedUp(boot, steps, f)
    ensures LookedUp(boot, steps + [st], f)
  {
    var c: nat :| LookedUpAt(boot, steps, c, f);
    assert (steps + [st])[..c] == steps[..c];
    assert LookedUpAt(boot, steps + [st], c, f);
  }

  ghost predicate SameLookup(f: Frame, g: Frame) {
    f.vector == g.vector && f.genuine == g.genuine && f.handler == g.handler
  }

  /** The frames a step leaves past their check were past it before, but for a check's own. */
  lemma {:induction false} StepKeepsLookups(m: Machine, st: Step, f: Frame) returns (g: Frame)
    requires Enabled(m, st) && f in Next(m, st).frames && !f.stage.Entered?
    ensures SameLookup(f, g)
    ensures (g in m.frames && !g.stage.Entered?) || (st == Check && g == Top(Next(m, st)))
  {
    hide AfterCheck, WriteCommand;
    var n := Next(m, st);
    g := f;
    match st
    case IntaMaster => AcknowledgeAddsEntered(m, st, f);
    case IntaSlave => AcknowledgeAddsEntered(m, st, f);
    case Check => var _ := TopOrBelow(m, Top(n), f);
    case HandlerDone => g := TopOrBelow(m, Top(n), f);
    case SendSlaveEoi => g := TopOrBelow(m, Top(n), f);
    case SendMasterEoi => g := TopOrBelow(m, Top(n), f);
    case Iret => assert n.frames <= m.frames;
    case _ => assert n.frames == m.frames;
  }

  /** A frame of a stack whose innermost one was replaced, and what it was before. */
  lemma {:induction false} TopOrBelow(m: Machine, top: Frame, f: Frame) returns (g: Frame)
    requires m.frames != [] && f in Below(m) + [top]
    ensures g in m.frames && (f == g || (f == top && g == Top(m)))
    ensures f == top || f in m.frames
  {
    g := if f in Below(m) then f else Top(m);
  }

  lemma {:induction false} AcknowledgeAddsEntered(m: Machine, st: Step, f: Frame)
    requires Enabled(m, st) && (st.IntaMaster? || st.IntaSlave?)
    requires f in Next(m, st).frames && !f.stage.Entered?
    ensures f in m.frames
  {
    hide MasterChoice, SlaveChoice;
  }

  lemma {:induction false} LookupOf(boot: Machine, steps: seq<Step>, f: Frame, g: Frame)
    requires LookedUp(boot, steps, g) && SameLookup(f, g)
    ensures LookedUp(boot, steps, f)
  {
    var c: nat :| LookedUpAt(boot, steps, c, g);
    assert LookedUpAt(boot, steps, c, f);
  }

  lemma {:induction false} CheckLooksUp(boot: Machine, steps: seq<Step>)
    requires Boot(boot) && Run(boot, steps).Some? && Enabled(Run(boot, steps).value, Check)
    ensures LookedUp(boot, steps + [Check], Top(Next(Run(boot, steps).value, Check)))
  {
    hide Run;
    var m := Run(boot, steps).value;
    TableReplaysInstalls(boot, steps, 0);
    TableReplaysInstalls(boot, steps, Top(m).vector);
    assert (steps + [Check])[..|steps|] == steps;
    assert LookedUpAt(boot, steps + [Check], |steps|, Top(Next(m, Check)));
  }

  /** After any run from boot, clash or no clash. */
  lemma {:induction false} EveryHandlerWasLookedUp(boot: Machine, steps: seq<Step>)
    requires Boot(boot) && Run(boot, steps).Some?
    ensures HandlersLookedUp(boot, steps, Run(boot, steps).value)
  {
    hide LookedUp;
    if steps == [] {
    } else {
      var init, st := steps[..|steps| - 1], steps[|steps| - 1];
      var m := Run(boot, init).value;
      assert steps == init + [st];
      EveryHandlerWasLookedUp(boot, init);
      StepLooksUp(boot, init, m, st);
    }
  }

  lemma {:induction false} StepLooksUp(boot: Machine, init: seq<Step>, m: Machine, st: Step)
    requires Boot(boot) && Run(boot, init) == Some(m) && Enabled(m, st) && HandlersLookedUp(boot, init, m)
    ensures HandlersLookedUp(boot, init + [st], Next(m, st))
  {
    hide LookedUp, Boot, Run, Next;
    var n := Next(m, st);
    forall f | f in n.frames && !f.stage.Entered? ensures LookedUp(boot, init + [st], f) {
      var g := StepKeepsLookups(m, st, f);
      if g in m.frames && !g.stage.Entered? {
        LookedUpBefore(boot, init, st, g);
      } else {
        CheckLooksUp(boot, init);
      }
      LookupOf(boot, init + [st], f, g);
    }
    ServedBefore(m, st);
    forall f | f in n.served ensures !f.stage.Entered? && LookedUp(boot, init + [st], f) {
      LookedUpBefore(boot, init, st, f);
    }
  }

  lemma {:induction false} ServedBefore(m: Machine, st: Step)
    requires Enabled(m, st)
    ensures forall f :: f in Next(m, st).served ==> f in m.served || (f in m.frames && f.stage == Returning)
  {
  }

  ////////////////////////////////////////////////////////////////////////////
  // End to end
  ////////////////////////////////////////////////////////////////////////////

  /** When a clash-free run is back in main code: every delivery was served, every genuine one
      with exactly one call of the handler last installed for its line when it was checked,
      or none if that was null, and no spurious one with a call. */
  lemma {:induction false} OneCallPerInterrupt(boot: Machine, steps: seq<Step>)
    requires Boot(boot) && Run(boot, steps).Some? && ClashFree(boot, steps)
    requires Run(boot, steps).value.frames == []
    ensures var m := Run(boot, steps).value;
      && DeliveriesIn(m.log) == DeliveriesOf(m.served)
      && CallsIn(m.log) == CallsDue(m.served)
      && forall f :: f in m.served ==>
           && LookedUp(boot, steps, f)
           && CallDue(f) ==
              (if f.genuine && f.handler != 0 then multiset{Called(f.vector, f.handler)} else multiset{})
  {
    hide LookedUp;
    OneCallPerGenuineFrame(boot, steps);
    EveryHandlerWasLookedUp(boot, steps);
  }

  /** After installation and any clash-free run, a genuine frame about to be checked stands
      for a line that is in service, and goes back to a rise of that line of its own; its
      vector's gate leads to the stub of that request, which pushes the same number; and the
      check calls the handler last installed for the line, or none if that is null: the one
      call this frame accounts for. */
  lemma {:induction false} EndToEndDispatch(boot: Machine, steps: seq<Step>,
                         idt: seq<InterruptKernel.IdtEntry>, labels: InterruptKernel.Labels)
    requires Boot(boot) && Run(boot, steps).Some? && ClashFree(boot, steps)
    requires AtStage(Run(boot, steps).value, Entered) && Top(Run(boot, steps).value).genuine
    requires InterruptKernel.Installed(idt, labels)
    ensures var m := Run(boot, steps).value;
      var k := DeviceLine(Top(m));
      && 0 <= k < 16 && LineInService(m, k)
      && InterruptKernel.Target(idt[IRQ0 + k]) == labels.stubs[IRQ0 + k]
      && StubFrames.StubOf(IRQ0 + k) == StubFrames.Irq(k)
      && StubFrames.PushedNumber(StubFrames.Irq(k)) == Top(m).vector
    ensures var m := Run(boot, steps).value;
      var v := Top(m).vector;
      var h := LastInstalled(boot.routines[v], steps, v);
      && Enabled(m, Check)
      && Next(m, Check).log == m.log + (if h == 0 then [] else [Called(v, h)])
      && Top(Next(m, Check)).stage == Handling
      && Accounted(m) && Accounted(Next(m, Check))
    ensures NoRequests(boot) ==> WasRaised(boot, steps, Top(Run(boot, steps).value).vector - 32)
  {
    hide Accounted, CameFromRise;
    OneCallPerGenuineFrame(boot, steps);
    ReachableGenuineFrame(boot, steps);
    TableReplaysInstalls(boot, steps, Top(Run(boot, steps).value).vector);
    RequestStub(DeviceLine(Top(Run(boot, steps).value)));
    AccountedAfterCheck(boot, steps);
    if NoRequests(boot) {
      var c, d := EnteredWasRaised(boot, steps, Top(Run(boot, steps).value).vector - 32);
    }
  }

  lemma {:induction false} AccountedAfterCheck(boot: Machine, steps: seq<Step>)
    requires Boot(boot) && Run(boot, steps).Some? && ClashFree(boot, steps)
    requires Enabled(Run(boot, steps).value, Check)
    ensures Accounted(Next(Run(boot, steps).value, Check))
  {
    hide Accounted, Inv, Boot, Next;
    BootSatisfiesInv(boot);
    ReachableIsInv(boot, steps);
    OneCallPerGenuineFrame(boot, steps);
    CheckIsAccounted(Run(boot, steps).value);
  }

  lemma {:induction false} RequestStub(k: nat)
    requires k < 16
    ensures StubFrames.StubOf(IRQ0 + k) == StubFrames.Irq(k)
    ensures StubFrames.PushedNumber(StubFrames.Irq(k)) == IRQ0 + k
  {
  }

  lemma {:induction false} ReachableGenuineFrame(boot: Machine, steps: seq<Step>)
    requires Boot(boot) && Run(boot, steps).Some? && ClashFree(boot, steps)
    requires AtStage(Run(boot, steps).value, Entered) && Top(Run(boot, steps).value).genuine
    ensures var m := Run(boot, steps).value;
      var v := Top(m).vector;
      && IRQ0 <= v <= IRQ15 && v < |m.routines| && LineInService(m, DeviceLine(Top(m)))
      && Enabled(m, Check) && Top(Next(m, Check)).stage == Handling
      && Next(m, Check).log == m.log + (if m.routines[v] == 0 then [] else [Called(v, m.routines[v])])
  {
    BootSatisfiesInv(boot);
    ReachableIsInv(boot, steps);
    GenuineFrameDispatch(Run(boot, steps).value);
  }

  lemma {:induction false} GenuineFrameDispatch(m: Machine)
    requires Inv(m) && AtStage(m, Entered) && Top(m).genuine
    ensures IRQ0 <= Top(m).vector <= IRQ15 && LineInService(m, DeviceLine(Top(m)))
    ensures Enabled(m, Check) && Top(Next(m, Check)).stage == Handling
    ensures var h := m.routines[Top(m).vector];
      Next(m, Check).log == m.log + (if h == 0 then [] else [Called(Top(m).vector, h)])
  {
    SplitTop(m);
    PushFrame(Below(m), Top(m));
    CheckRecognisesSpurious(m);
  }

  ////////////////////////////////////////////////////////////////////////////
  // The whole way in, as the code runs
  ////////////////////////////////////////////////////////////////////////////

  lemma {:induction false} StepKeepsLog(m: Machine, st: Step)
    requires Enabled(m, st)
    ensures m.log <= Next(m, st).log
  {
    hide MasterChoice, SlaveChoice, WriteCommand, AfterCheck, Highest;
  }

  lemma {:induction false} RunKeepsLog(m: Machine, steps: seq<Step>)
    requires Run(m, steps).Some?
    ensures m.log <= Run(m, steps).value.log
  {
    hide Next, Enabled;
    if steps == [] {
    } else {
      var init := steps[..|steps| - 1];
      RunKeepsLog(m, init);
      StepKeepsLog(Run(m, init).value, steps[|steps| - 1]);
    }
  }

  /** A service begins with the check, and its log with what that logs. */
  lemma {:induction false} ServiceLogsCheck(m: Machine, isrWord: nat, gaps: InterruptKernel.Gaps)
    requires Enabled(m, Check)
    requires Run(m, InterruptKernel.ServiceSteps(Top(m).vector, isrWord, gaps)).Some?
    ensures Next(m, Check).log <= Run(m, InterruptKernel.ServiceSteps(Top(m).vector, isrWord, gaps)).value.log
  {
    hide Next, Run, AfterCheck;
    var steps := InterruptKernel.ServiceSteps(Top(m).vector, isrWord, gaps);
    assert steps == [Check] + steps[1..];
    InterruptKernel.OneStep(m, Check);
    InterruptKernel.RunAppend(m, [Check], steps[1..]);
    RunKeepsLog(Next(m, Check), steps[1..]);
  }

  /** From the gate of a genuine interrupt to the end of its service: the CPU goes through the
      entry of the vector to that request's stub, the stub's record shows the interrupted
      registers and has the vector for its number, and the dispatcher that reads the number
      there calls the handler in the table and goes through the state machine's service. */
  method TakeInterrupt(cpu: StubFrames.Cpu, kernel: InterruptKernel.Kernel, error: StubFrames.Word,
                       ghost labels: InterruptKernel.Labels, gaps: InterruptKernel.Gaps)
    returns (target: InterruptKernel.Address, c: StubFrames.Context)
    requires Inv(kernel.View()) && AtStage(kernel.View(), Entered) && Top(kernel.View()).genuine
    requires InterruptKernel.Installed(kernel.idt, labels)
    requires Enabled(kernel.View(), Check) && InterruptKernel.AfterService(kernel.View(), gaps).Some?
    modifies cpu, kernel
    ensures c.intNo == Top(old(kernel.View())).vector && target == labels.stubs[c.intNo]
    ensures StubFrames.Records(c, old(cpu.r), c.intNo, error)
    ensures var h := old(kernel.routines)[c.intNo];
      old(kernel.log) + (if h == 0 then [] else [Called(c.intNo, h)]) <= kernel.log
    ensures Run(old(kernel.View()), InterruptKernel.ServiceSteps(c.intNo, IsrWord(old(kernel.View())), gaps))
            == Some(kernel.View())
  {
    hide Inv, Next, Run, AfterCheck, IsrWord, InterruptKernel.AfterService, InterruptKernel.ServiceSteps,
      StubFrames.ContextAt, StubFrames.Records;
    ghost var m := kernel.View();
    GenuineFrameDispatch(m);
    var vector := Top(kernel.View()).vector;
    target := InterruptKernel.Target(kernel.idt[vector]);
    var p := cpu.EnterDispatcher(vector, error, target);
    c := StubFrames.ContextAt(cpu.mem, p);
    RecordsNumber(c, old(cpu.r), vector, error);
    var panicked := kernel.InterruptHandler(c.intNo, gaps);
    ServiceLogsCheck(m, IsrWord(m), gaps);
  }

  lemma {:induction false} RecordsNumber(c: StubFrames.Context, r: StubFrames.Regs, vector: nat, error: StubFrames.Word)
    requires StubFrames.Records(c, r, vector, error)
    ensures c.intNo == vector
  {
  }
}
