/** Draining: once devices and masks stand still, every unmasked pending request is
    dispatched exactly once, in fully nested priority order, whether or not handlers
    set IF, and the machine cannot work for ever without getting there. */
module Draining {
  import opened Basics
  import opened Pic8259
  import opened InterruptMachine
  import opened NestedService
  import opened DeviceLines

  /** Device line k asks for service and no mask stands in its way. */
  predicate IsPending(m: Machine, k: int) {
    && Requested(m, k) && k != CASCADE
    && if k < 8 then k !in m.master.imr else CASCADE !in m.master.imr && k - 8 !in m.slave.imr
  }

  function Pending(m: Machine): set<int> {
    set k | 0 <= k < 16 && IsPending(m, k)
  }

  /** Masks hold back the requests of their lines, and mask 2 of the master all of the slave's. */
  lemma {:induction false} MasksHoldBack(m: Machine, masterMask: set<Line>, slaveMask: set<Line>, k: int)
    ensures IsPending(Next(m, SetMasks(masterMask, slaveMask)), k) <==>
      && Requested(m, k) && k != 2
      && if k < 8 then k !in masterMask else 2 !in masterMask && k - 8 !in slaveMask
  {
  }

  function DispatchOf(e: Event): seq<int> {
    match e case Delivered(v, _) => [v - IRQ0] case _ => []
  }

  /** The device lines dispatched, in order. */
  function Dispatches(log: seq<Event>): seq<int> {
    if log == [] then [] else Dispatches(log[..|log| - 1]) + DispatchOf(log[|log| - 1])
  }

  predicate InPriorityOrder(lines: seq<int>) {
    forall i, j :: 0 <= i < j < |lines| ==> Rank(lines[i]) < Rank(lines[j])
  }

  /** A step of the CPU or the acknowledge cycle, as opposed to a device or a mask. */
  predicate Quiet(st: Step) {
    !st.Raise? && !st.Lower? && !st.SetMasks?
  }

  /** An acknowledge under way still has the request it was begun for. */
  ghost predicate Honest(m: Machine) {
    && (m.ack.Sampled? ==> MasterChoice(m) < 8)
    && (m.ack.SlaveSelected? ==>
          SlaveChoice(m) < 8 && CASCADE !in m.master.imr && !IsPending(m, 0) && !IsPending(m, 1))
  }

  /** n follows m by dispatching pending line k, which outranks everything left. */
  ghost predicate Dispatched(m: Machine, n: Machine, k: nat) {
    && k in Pending(m)
    && n.log == m.log + [Delivered(IRQ0 + k, true)]
    && Pending(n) == Pending(m) - {k}
    && forall p :: p in Pending(n) ==> Rank(k) < Rank(p)
  }

  ////////////////////////////////////////////////////////////////////////////
  // One step
  ////////////////////////////////////////////////////////////////////////////

  /** The resolver's choice is at or above every unmasked request, blocked or not. */
  lemma {:induction false} ChoiceOutranks(requests: set<Line>, imr: set<Line>, isr: set<Line>, x: Line)
    requires Highest(Unblocked(requests, imr, isr)) < 8
    requires x in requests && x !in imr
    ensures Highest(Unblocked(requests, imr, isr)) <= x
  {
  }

  /** A line the master's resolver chose outranks every other pending line. */
  lemma {:induction false} MasterChoiceOutranks(m: Machine, p: int)
    requires Inv(m) && m.ack.Sampled? && MasterChoice(m) < 8
    requires p in Pending(m)
    ensures MasterChoice(m) <= (if p < 8 then p else CASCADE)
  {
    if p < 8 {
      ChoiceOutranks(MasterRequests(m), m.master.imr, m.master.isr, p);
    } else if CASCADE !in m.master.isr {
      CascadeFree(m.frames);
      assert p - 8 in Unblocked(m.slave.irr, m.slave.imr, m.slave.isr);
      ChoiceOutranks(MasterRequests(m), m.master.imr, m.master.isr, CASCADE);
    }
  }

  lemma {:induction false} DispatchFromMaster(m: Machine)
    requires Inv(m) && m.ack.Sampled? && MasterChoice(m) < 8 && MasterChoice(m) != CASCADE
    ensures Dispatched(m, AcknowledgeMaster(m), MasterChoice(m))
  {
    var h: Line := MasterChoice(m);
    var n := AcknowledgeMaster(m);
    assert h in m.master.irr && h !in m.master.imr;
    forall p: int ensures IsPending(n, p) <==> IsPending(m, p) && p != h { }
    forall p | p in Pending(n) ensures Rank(h) < Rank(p) {
      MasterChoiceOutranks(m, p);
    }
  }

  lemma {:induction false} SelectSlave(m: Machine)
    requires Inv(m) && m.ack.Sampled? && MasterChoice(m) == CASCADE
    ensures Honest(AcknowledgeMaster(m)) && Pending(AcknowledgeMaster(m)) == Pending(m)
  {
  }

  lemma {:induction false} DispatchFromSlave(m: Machine)
    requires Inv(m) && Honest(m) && m.ack.SlaveSelected?
    ensures Dispatched(m, AcknowledgeSlave(m), SlaveChoice(m) + 8)
  {
  }

  /** The requests and masks are as they were, and nothing was dispatched. */
  ghost predicate NoDispatch(m: Machine, n: Machine) {
    && Pending(n) == Pending(m)
    && (n.log == m.log || exists e: Event :: n.log == m.log + [e] && !e.Delivered?)
  }

  lemma {:induction false} SamePending(m: Machine, n: Machine)
    requires n.master.irr == m.master.irr && n.master.imr == m.master.imr
    requires n.slave.irr == m.slave.irr && n.slave.imr == m.slave.imr
    ensures Pending(n) == Pending(m)
  {
    assert forall p :: IsPending(n, p) <==> IsPending(m, p);
  }

  lemma {:induction false} EoiDispatchesNothing(m: Machine, st: Step)
    requires Enabled(m, st) && (st.SendSlaveEoi? || st.SendMasterEoi?)
    ensures NoDispatch(m, Next(m, st))
  {
    hide Pending, Highest, EndOfInterrupt, WriteCommand;
    var n := Next(m, st);
    CommandEffects(m.master);
    CommandEffects(m.slave);
    if st.SendSlaveEoi? {
      assert n.slave == m.slave.(isr := EndOfInterrupt(m.slave.isr)) && n.master == m.master;
      SamePending(m, n);
      assert n.log == m.log + [SlaveEoi(Highest(m.slave.isr))];
    } else {
      assert n.master == m.master.(isr := EndOfInterrupt(m.master.isr)) && n.slave == m.slave;
      SamePending(m, n);
      assert n.log == m.log + [MasterEoi(Highest(m.master.isr))];
    }
  }

  lemma {:induction false} CheckDispatchesNothing(m: Machine)
    requires Enabled(m, Check)
    ensures NoDispatch(m, Next(m, Check))
  {
    hide Pending, WriteCommand, AfterCheck;
    var n := Next(m, Check);
    CommandEffects(m.master);
    CommandEffects(m.slave);
    SamePending(m, n);
    if n.log != m.log {
      assert n.log == m.log + [Called(Top(n).vector, Top(n).handler)];
    }
  }

  lemma {:induction false} OtherStepDispatchesNothing(m: Machine, st: Step)
    requires Honest(m) && Enabled(m, st) && Quiet(st) && !st.IntaMaster? && !st.IntaSlave?
    ensures NoDispatch(m, Next(m, st)) && Honest(Next(m, st))
  {
    hide Pending, NoDispatch, MasterChoice, CheckFrame, WriteCommand;
    var n := Next(m, st);
    match st
    case Check => CheckDispatchesNothing(m); assert CheckFrame(m).ack.Idle? by { CheckIsIdle(m); }
    case SendSlaveEoi => EoiDispatchesNothing(m, st);
    case SendMasterEoi => EoiDispatchesNothing(m, st);
    case _ =>
      SamePending(m, n);
      NothingLogged(m, n);
      SameChoice(m, n);
  }

  lemma {:induction false} CheckIsIdle(m: Machine)
    requires Enabled(m, Check)
    ensures CheckFrame(m).ack.Idle?
  {
  }

  lemma {:induction false} NothingLogged(m: Machine, n: Machine)
    requires Pending(n) == Pending(m) && n.log == m.log
    ensures NoDispatch(m, n)
  {
  }

  lemma {:induction false} SameChoice(m: Machine, n: Machine)
    requires n.master == m.master && n.slave == m.slave
    ensures MasterChoice(n) == MasterChoice(m)
  {
  }

  /** A quiet step dispatches the pending line of highest priority or nothing at all. */
  lemma {:induction false} QuietStep(m: Machine, st: Step)
    requires Inv(m) && Honest(m) && Enabled(m, st) && Quiet(st)
    ensures Inv(Next(m, st)) && Honest(Next(m, st))
    ensures NoDispatch(m, Next(m, st)) || exists k: nat :: Dispatched(m, Next(m, st), k)
  {
    StepKeepsInv(m, st);
    if st.IntaMaster? {
      if MasterChoice(m) == CASCADE {
        SelectSlave(m);
        assert Next(m, st).log == m.log;
      } else {
        DispatchFromMaster(m);
        assert Next(m, st).ack.Idle?;
      }
    } else if st.IntaSlave? {
      DispatchFromSlave(m);
      assert Next(m, st).ack.Idle?;
    } else {
      OtherStepDispatchesNothing(m, st);
    }
  }

  ////////////////////////////////////////////////////////////////////////////
  // Whole runs
  ////////////////////////////////////////////////////////////////////////////

  /** What a quiet run from m to s has dispatched. */
  function NewDispatches(m: Machine, s: Machine): seq<int> {
    if |m.log| <= |s.log| then Dispatches(s.log[|m.log|..]) else []
  }

  /** The lines dispatched and those still pending make up those pending at first. */
  ghost predicate Accounts(first: set<int>, lines: seq<int>, left: set<int>) {
    && InPriorityOrder(lines)
    && (forall k :: k in lines ==> k in first)
    && left == first - (set k | k in lines)
    && |lines| + |left| == |first|
    && forall k, p :: k in lines && p in left ==> Rank(k) < Rank(p)
  }

  ghost predicate DrainedSoFar(m: Machine, s: Machine) {
    Accounts(Pending(m), NewDispatches(m, s), Pending(s))
  }

  lemma {:induction false} OneMoreLine(first: set<int>, lines: seq<int>, left: set<int>, k: int)
    requires Accounts(first, lines, left) && k in left
    requires forall p :: p in left - {k} ==> Rank(k) < Rank(p)
    ensures Accounts(first, lines + [k], left - {k})
  {
    hide Rank;
    var lines' := lines + [k];
    forall i, j | 0 <= i < j < |lines'| ensures Rank(lines'[i]) < Rank(lines'[j]) {
      assert lines'[i] in lines;
    }
  }

  lemma {:induction false} DispatchesSnoc(log: seq<Event>, e: Event)
    ensures Dispatches(log + [e]) == Dispatches(log) + DispatchOf(e)
  {
  }

  lemma {:induction false} DrainStep(m: Machine, s: Machine, n: Machine)
    requires m.log <= s.log && DrainedSoFar(m, s)
    requires NoDispatch(s, n) || exists k: nat :: Dispatched(s, n, k)
    ensures m.log <= n.log && DrainedSoFar(m, n)
  {
    hide Dispatches, Pending, Rank, Accounts;
    var lines := NewDispatches(m, s);
    var tail := s.log[|m.log|..];
    if NoDispatch(s, n) {
      if n.log != s.log {
        var e: Event :| n.log == s.log + [e] && !e.Delivered?;
        assert n.log[|m.log|..] == tail + [e];
        DispatchesSnoc(tail, e);
      }
      assert NewDispatches(m, n) == lines;
    } else {
      var k: nat :| Dispatched(s, n, k);
      var e := Delivered(IRQ0 + k, true);
      assert n.log[|m.log|..] == tail + [e];
      DispatchesSnoc(tail, e);
      assert NewDispatches(m, n) == lines + [k];
      OneMoreLine(Pending(m), lines, Pending(s), k);
    }
  }

  ghost predicate AllQuiet(steps: seq<Step>) {
    forall i :: 0 <= i < |steps| ==> Quiet(steps[i])
  }

  /** Draining: along every quiet run, from any state where an acknowledge under way, if there
      is one, still has its request, and whatever handlers are active, the lines dispatched
      are pending ones, strictly in priority order, hence each once; they and what is still
      pending make up what was pending at the start; and nothing still pending outranks what
      was dispatched. */
  lemma {:induction false} QuietRunDrainsInOrder(m: Machine, steps: seq<Step>)
    requires Inv(m) && Honest(m) && Run(m, steps).Some? && AllQuiet(steps)
    ensures var s := Run(m, steps).value;
      Inv(s) && Honest(s) && m.log <= s.log && DrainedSoFar(m, s)
  {
    if steps == [] {
      assert NewDispatches(m, m) == [];
    } else {
      var init := steps[..|steps| - 1];
      QuietRunDrainsInOrder(m, init);
      var s := Run(m, init).value;
      QuietStep(s, steps[|steps| - 1]);
      DrainStep(m, s, Next(s, steps[|steps| - 1]));
    }
  }

  lemma {:induction false} IdleHasNothingPending(s: Machine)
    requires Inv(s) && s.frames == [] && s.ack.Idle? && MasterChoice(s) == 8
    ensures Pending(s) == {}
  {
  }

  lemma {:induction false} IntIsLow(s: Machine)
    requires s.cpuIf && s.ack.Idle? && !Enabled(s, Recognise)
    ensures MasterChoice(s) == 8
  {
  }

  /** When no frame is left, IF is set and INT is low, every pending line has been dispatched. */
  lemma {:induction false} DrainedWhenIdle(m: Machine, steps: seq<Step>)
    requires Inv(m) && Honest(m) && Run(m, steps).Some? && AllQuiet(steps)
    requires var s := Run(m, steps).value;
      s.frames == [] && s.cpuIf && s.ack.Idle? && !Enabled(s, Recognise)
    ensures var s := Run(m, steps).value;
      && Pending(s) == {}
      && InPriorityOrder(NewDispatches(m, s))
      && (set k | k in NewDispatches(m, s)) == Pending(m)
      && |NewDispatches(m, s)| == |Pending(m)|
  {
    hide Inv, Pending, MasterChoice, Enabled, InPriorityOrder, NewDispatches, Accounts, Honest;
    var s := Run(m, steps).value;
    QuietRunDrainsInOrder(m, steps);
    IntIsLow(s);
    IdleHasNothingPending(s);
    AllDispatched(m, s);
  }

  lemma {:induction false} AllDispatched(m: Machine, s: Machine)
    requires DrainedSoFar(m, s) && Pending(s) == {}
    ensures InPriorityOrder(NewDispatches(m, s))
    ensures (set k | k in NewDispatches(m, s)) == Pending(m)
    ensures |NewDispatches(m, s)| == |Pending(m)|
  {
  }

  lemma {:induction false} PendingRaisesInt(s: Machine)
    requires Inv(s) && s.frames == [] && s.ack.Idle? && Pending(s) != {}
    ensures MasterChoice(s) < 8
  {
  }

  ////////////////////////////////////////////////////////////////////////////
  // Progress
  ////////////////////////////////////////////////////////////////////////////

  predicate Progress(st: Step) {
    || st.Recognise? || st.IntaMaster? || st.IntaSlave? || st.Check?
    || st.HandlerDone? || st.SendSlaveEoi? || st.SendMasterEoi? || st.Iret?
  }

  function StageWork(s: Stage): nat {
    match s
    case Entered => 5
    case Handling => 4
    case SlaveEoiDue => 3
    case MasterEoiDue => 2
    case Returning => 1
  }

  function FrameWork(fs: seq<Frame>): nat {
    if fs == [] then 0 else FrameWork(fs[..|fs| - 1]) + StageWork(fs[|fs| - 1].stage)
  }

  /** Work left: eight units for each pending line, what the frames have to do, and the acknowledge. */
  function Measure(m: Machine): nat {
    8 * |Pending(m)| + FrameWork(m.frames)
    + match m.ack case Idle => 2 case Sampled => 1 case SlaveSelected => 0
  }

  lemma {:induction false} DeliveryFallsByMeasure(m: Machine, n: Machine, k: nat)
    requires Dispatched(m, n, k) && !m.ack.Idle? && n.ack.Idle?
    requires n.frames != [] && Below(n) == m.frames && Top(n).stage == Entered
    ensures Measure(n) < Measure(m)
  {
  }

  lemma {:induction false} DispatcherFallsByMeasure(m: Machine, st: Step)
    requires m.frames != [] && Enabled(m, st) && Pending(Next(m, st)) == Pending(m)
    requires st.Check? || st.HandlerDone? || st.SendSlaveEoi? || st.SendMasterEoi? || st.Iret?
    ensures Measure(Next(m, st)) < Measure(m)
  {
  }

  /** Every step of a service or an acknowledge brings the work left down; the other quiet
      steps leave it as it is. */
  lemma {:induction false} QuietStepMeasure(m: Machine, st: Step)
    requires Inv(m) && Honest(m) && Enabled(m, st) && Quiet(st)
    ensures Progress(st) ==> Measure(Next(m, st)) < Measure(m)
    ensures !Progress(st) ==> Measure(Next(m, st)) == Measure(m)
  {
    hide Inv, FrameWork, Pending, MasterChoice, SlaveChoice;
    var n := Next(m, st);
    match st
    case IntaMaster =>
      if MasterChoice(m) == CASCADE {
        SelectSlave(m);
      } else {
        DispatchFromMaster(m);
        DeliveryFallsByMeasure(m, n, MasterChoice(m));
      }
    case IntaSlave =>
      DispatchFromSlave(m);
      DeliveryFallsByMeasure(m, n, SlaveChoice(m) + 8);
    case _ =>
      OtherStepDispatchesNothing(m, st);
      if m.frames != [] && Progress(st) && !st.Recognise? {
        DispatcherFallsByMeasure(m, st);
      }
  }

  function ProgressCount(steps: seq<Step>): nat {
    if steps == [] then 0
    else ProgressCount(steps[..|steps| - 1]) + if Progress(steps[|steps| - 1]) then 1 else 0
  }

  /** A quiet run can make no more progress steps than the work there was at its start. */
  lemma {:induction false} ProgressIsBounded(m: Machine, steps: seq<Step>)
    requires Inv(m) && Honest(m) && Run(m, steps).Some? && AllQuiet(steps)
    ensures ProgressCount(steps) + Measure(Run(m, steps).value) <= Measure(m)
  {
    if steps == [] {
    } else {
      var init := steps[..|steps| - 1];
      ProgressIsBounded(m, init);
      QuietRunDrainsInOrder(m, init);
      QuietStepMeasure(Run(m, init).value, steps[|steps| - 1]);
    }
  }

  /** The machine is never stuck: with a frame active, an acknowledge under way, or IF set
      and something pending, some progress step is enabled. */
  lemma {:induction false} NeverStuck(m: Machine) returns (st: Step)
    requires Inv(m)
    requires m.frames != [] || !m.ack.Idle? || (m.cpuIf && Pending(m) != {})
    ensures Progress(st) && Enabled(m, st)
  {
    match m.ack {
      case Sampled => st := IntaMaster;
      case SlaveSelected => st := IntaSlave;
      case Idle =>
        if m.frames == [] {
          PendingRaisesInt(m);
          st := Recognise;
        } else {
          SplitTop(m);
          PushFrame(Below(m), Top(m));
          match Top(m).stage {
            case Entered => st := Check;
            case Handling => st := HandlerDone;
            case SlaveEoiDue => st := SendSlaveEoi;
            case MasterEoiDue => st := SendMasterEoi;
            case Returning => st := Iret;
          }
        }
    }
  }

  ////////////////////////////////////////////////////////////////////////////
  // The machine drains
  ////////////////////////////////////////////////////////////////////////////

  /** While a frame is left or IF is set, a progress step leaves one or the other so. */
  lemma {:induction false} StaysAwake(m: Machine, st: Step)
    requires Inv(m) && Enabled(m, st) && Progress(st)
    requires m.frames != [] || m.cpuIf
    ensures Next(m, st).frames != [] || Next(m, st).cpuIf
  {
    hide MasterChoice, SlaveChoice, MasterHeld, SlaveHeld, Nested, WriteCommand, AfterCheck;
  }

  /** One more progress step of a quiet run. */
  lemma {:induction false} OneMoreStep(m: Machine, steps: seq<Step>, s: Machine, st: Step)
    requires Inv(m) && Honest(m) && Run(m, steps) == Some(s) && AllQuiet(steps)
    requires Enabled(s, st) && Progress(st)
    ensures Run(m, steps + [st]) == Some(Next(s, st)) && AllQuiet(steps + [st])
    ensures Inv(Next(s, st)) && ProgressCount(steps + [st]) == ProgressCount(steps) + 1
    ensures Measure(Next(s, st)) < Measure(s)
  {
    hide Inv, Next, Enabled, Measure, DrainedSoFar, Honest;
    assert (steps + [st])[..|steps|] == steps;
    QuietRunDrainsInOrder(m, steps);
    QuietStep(s, st);
    QuietStepMeasure(s, st);
  }

  /** From every such state, with a frame active or IF set, the
      machine can go on without devices or masks changing until main code runs again with
      nothing pending, in no more progress steps than the work there was; what was pending
      has then been dispatched, each line once and in priority order. */
  lemma {:induction false} Drains(m: Machine) returns (steps: seq<Step>)
    requires Inv(m) && Honest(m) && (m.frames != [] || m.cpuIf)
    ensures Run(m, steps).Some? && AllQuiet(steps) && ProgressCount(steps) <= Measure(m)
    ensures var s := Run(m, steps).value;
      && s.frames == [] && s.cpuIf && s.ack.Idle? && Pending(s) == {}
      && InPriorityOrder(NewDispatches(m, s))
      && (set k | k in NewDispatches(m, s)) == Pending(m)
      && |NewDispatches(m, s)| == |Pending(m)|
  {
    hide Next, Enabled, Measure, Pending, InPriorityOrder, NewDispatches, Accounts, Honest, Nested, Run;
    steps := [];
    var s := m;
    assert Run(m, []) == Some(m) by { EmptyRun(m); }
    while s.frames != [] || !s.ack.Idle? || Pending(s) != {}
      invariant Run(m, steps) == Some(s) && AllQuiet(steps) && Inv(s)
      invariant s.frames != [] || s.cpuIf
      invariant ProgressCount(steps) + Measure(s) <= Measure(m)
      decreases Measure(s)
    {
      var st := NeverStuck(s);
      OneMoreStep(m, steps, s, st);
      StaysAwake(s, st);
      steps, s := steps + [st], Next(s, st);
    }
    QuietRunDrainsInOrder(m, steps);
    AllDispatched(m, s);
  }

  lemma {:induction false} EmptyRun(m: Machine)
    ensures Run(m, []) == Some(m)
  {
  }
}
