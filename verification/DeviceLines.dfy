/** From a device line that rises to the request that is served: over every run a line is
    requested exactly when it has risen since it last dropped or was delivered. */
module DeviceLines {
  import opened Basics
  import opened Pic8259
  import opened InterruptMachine

  /** The controllers have a request of device line k. */
  predicate Requested(m: Machine, k: int) {
    0 <= k < 16 && if k < 8 then k in m.master.irr else k - 8 in m.slave.irr
  }

  predicate LineInService(m: Machine, k: int) {
    0 <= k < 16 && if k < 8 then k in m.master.isr else k - 8 in m.slave.isr
  }

  predicate NoRequests(m: Machine) {
    m.master.irr == {} && m.slave.irr == {}
  }

  predicate Based(m: Machine) {
    m.master.base == 32 && m.slave.base == 40
  }

  /** The step is an acknowledge that puts a genuine frame of vector 32 + k on the stack. */
  predicate Delivers(m: Machine, st: Step, k: nat) {
    && Enabled(m, st) && (st.IntaMaster? || st.IntaSlave?)
    && |Next(m, st).frames| == |m.frames| + 1
    && Top(Next(m, st)).genuine && Top(Next(m, st)).vector == 32 + k
  }

  ////////////////////////////////////////////////////////////////////////////
  // One step
  ////////////////////////////////////////////////////////////////////////////

  /** A line that rises becomes requested, and no other does. */
  lemma {:induction false} RaiseRequests(m: Machine, k: nat, j: int)
    requires Enabled(m, Raise(k))
    ensures Requested(Next(m, Raise(k)), j) <==> j == k || Requested(m, j)
    ensures Next(m, Raise(k)).high == m.high + {k}
  {
  }

  /** A line that drops is requested no more, and every other is as it was. */
  lemma {:induction false} LowerWithdraws(m: Machine, k: nat, j: int)
    requires Enabled(m, Lower(k))
    ensures Requested(Next(m, Lower(k)), j) <==> j != k && Requested(m, j)
    ensures Next(m, Lower(k)).high == m.high - {k}
  {
  }

  lemma {:induction false} AcknowledgeTakesOne(m: Machine, st: Step, k: nat)
    requires Based(m) && Enabled(m, st) && (st.IntaMaster? || st.IntaSlave?)
    ensures Delivers(m, st, k) ==> Requested(m, k)
    ensures Requested(Next(m, st), k) <==> Requested(m, k) && !Delivers(m, st, k)
  {
  }

  lemma {:induction false} EoiKeepsRequests(m: Machine, st: Step)
    requires Enabled(m, st) && (st.Check? || st.SendSlaveEoi? || st.SendMasterEoi?)
    ensures var n := Next(m, st);
      && n.master.irr == m.master.irr && n.slave.irr == m.slave.irr
      && n.master.base == m.master.base && n.slave.base == m.slave.base
  {
    hide WriteCommand, AfterCheck, EndOfInterrupt, Highest;
    CommandEffects(m.master);
    CommandEffects(m.slave);
    match st {
      case Check =>
      case SendSlaveEoi => assert Next(m, st).master == m.master;
      case SendMasterEoi => assert Next(m, st).slave == m.slave;
    }
  }

  lemma {:induction false} StepKeepsBases(m: Machine, st: Step)
    requires Based(m) && Enabled(m, st)
    ensures Based(Next(m, st))
  {
    hide WriteCommand, AfterCheck, MasterChoice, SlaveChoice;
    if st.Check? || st.SendSlaveEoi? || st.SendMasterEoi? {
      EoiKeepsRequests(m, st);
    }
  }

  /** What every step does to the request of line k. */
  lemma {:induction false} StepRequests(m: Machine, st: Step, k: nat)
    requires Based(m) && Enabled(m, st)
    ensures Requested(Next(m, st), k) <==>
      st == Raise(k) || (Requested(m, k) && st != Lower(k) && !Delivers(m, st, k))
    ensures Delivers(m, st, k) ==> Requested(m, k)
  {
    hide AcknowledgeMaster, AcknowledgeSlave, CheckFrame, WriteCommand, MasterChoice, Highest;
    match st
    case Raise(j) => RaiseRequests(m, j, k);
    case Lower(j) => LowerWithdraws(m, j, k);
    case IntaMaster => AcknowledgeTakesOne(m, st, k);
    case IntaSlave => AcknowledgeTakesOne(m, st, k);
    case Check => EoiKeepsRequests(m, st);
    case SendSlaveEoi => EoiKeepsRequests(m, st);
    case SendMasterEoi => EoiKeepsRequests(m, st);
    case _ =>
  }

  ////////////////////////////////////////////////////////////////////////////
  // Whole runs
  ////////////////////////////////////////////////////////////////////////////

  /** Step d of the run delivers line k. */
  ghost predicate DeliveredAt(boot: Machine, steps: seq<Step>, d: nat, k: nat) {
    d < |steps| && Run(boot, steps[..d]).Some? && Delivers(Run(boot, steps[..d]).value, steps[d], k)
  }

  /** Line k rose at step c, and up to step `end` it neither dropped nor was delivered. */
  ghost predicate RaisedAt(boot: Machine, steps: seq<Step>, c: nat, end: nat, k: nat) {
    && c < end <= |steps| && steps[c] == Raise(k)
    && forall d: nat :: c < d < end ==> steps[d] != Lower(k) && !DeliveredAt(boot, steps, d, k)
  }

  ghost predicate Raised(boot: Machine, steps: seq<Step>, k: nat) {
    exists c: nat :: RaisedAt(boot, steps, c, |steps|, k)
  }

  lemma {:induction false} RunKeepsBases(boot: Machine, steps: seq<Step>)
    requires Based(boot) && Run(boot, steps).Some?
    ensures Based(Run(boot, steps).value)
  {
    hide Enabled, Next, Based;
    if steps == [] {
    } else {
      var init := steps[..|steps| - 1];
      RunKeepsBases(boot, init);
      StepKeepsBases(Run(boot, init).value, steps[|steps| - 1]);
    }
  }

  /** Deliveries of a run are those of the run without its last step, and the last step's. */
  lemma {:induction false} DeliveredBefore(boot: Machine, init: seq<Step>, st: Step, d: nat, k: nat)
    requires d < |init|
    ensures DeliveredAt(boot, init + [st], d, k) <==> DeliveredAt(boot, init, d, k)
    ensures (init + [st])[d] == init[d]
  {
    assert (init + [st])[..d] == init[..d];
  }

  lemma {:induction false} DeliveredLast(boot: Machine, init: seq<Step>, st: Step, m: Machine, k: nat)
    requires Run(boot, init) == Some(m)
    ensures DeliveredAt(boot, init + [st], |init|, k) <==> Delivers(m, st, k)
  {
    assert (init + [st])[..|init|] == init;
  }

  /** One more step keeps what has risen up to it, unless it withdraws or delivers it. */
  lemma {:induction false} RaisedStep(boot: Machine, init: seq<Step>, st: Step, m: Machine, k: nat)
    requires Run(boot, init) == Some(m)
    ensures Raised(boot, init + [st], k) <==>
      st == Raise(k) || (Raised(boot, init, k) && st != Lower(k) && !Delivers(m, st, k))
  {
    hide Run, Delivers, DeliveredAt;
    var steps := init + [st];
    DeliveredLast(boot, init, st, m, k);
    forall d: nat | d < |init|
      ensures steps[d] == init[d] && (DeliveredAt(boot, steps, d, k) <==> DeliveredAt(boot, init, d, k))
    {
      DeliveredBefore(boot, init, st, d, k);
    }
    if Raised(boot, steps, k) {
      var c: nat :| RaisedAt(boot, steps, c, |steps|, k);
      if c < |init| {
        assert steps[|init|] == st && steps[c] == init[c];
        assert RaisedAt(boot, init, c, |init|, k);
      }
    }
    if st == Raise(k) {
      assert RaisedAt(boot, steps, |init|, |steps|, k);
    } else if Raised(boot, init, k) && st != Lower(k) && !Delivers(m, st, k) {
      var c: nat :| RaisedAt(boot, init, c, |init|, k);
      assert steps[c] == init[c];
      assert RaisedAt(boot, steps, c, |steps|, k);
    }
  }

  /** Over every run from a boot without requests, a line is requested exactly when it has
      risen and has neither dropped nor been delivered since. */
  lemma {:induction false} RequestsAreRaises(boot: Machine, steps: seq<Step>, k: nat)
    requires Based(boot) && NoRequests(boot) && Run(boot, steps).Some?
    ensures Requested(Run(boot, steps).value, k) <==> Raised(boot, steps, k)
  {
    hide Enabled, Next, Requested, Delivers, Based, Raised;
    if steps == [] {
      NothingYet(boot, k);
    } else {
      var init, st := steps[..|steps| - 1], steps[|steps| - 1];
      assert steps == init + [st];
      var m := Run(boot, init).value;
      RequestsAreRaises(boot, init, k);
      RunKeepsBases(boot, init);
      StepRequests(m, st, k);
      RaisedStep(boot, init, st, m, k);
    }
  }

  lemma {:induction false} NothingYet(boot: Machine, k: nat)
    requires NoRequests(boot)
    ensures !Requested(boot, k) && !Raised(boot, [], k)
  {
  }

  lemma {:induction false} RunPrefix(boot: Machine, steps: seq<Step>, d: nat)
    requires Run(boot, steps).Some? && d < |steps|
    ensures Run(boot, steps[..d]).Some? && Enabled(Run(boot, steps[..d]).value, steps[d])
    ensures Run(boot, steps[..d + 1]) == Some(Next(Run(boot, steps[..d]).value, steps[d]))
  {
    hide Enabled, Next;
    var init := steps[..|steps| - 1];
    if d == |init| {
      assert steps[..d + 1] == steps;
    } else {
      RunPrefix(boot, init, d);
      assert init[..d] == steps[..d] && init[..d + 1] == steps[..d + 1];
    }
  }

  /** Each genuine delivery under vector 32 + k is of its own rise of line k: one after every
      earlier delivery under that vector, since which the line has not dropped. */
  lemma {:induction false} EveryDeliveryWasRaised(boot: Machine, steps: seq<Step>, d: nat, k: nat)
    returns (c: nat)
    requires Based(boot) && NoRequests(boot) && Run(boot, steps).Some? && DeliveredAt(boot, steps, d, k)
    ensures RaisedAt(boot, steps, c, d, k)
  {
    hide Delivers, Requested;
    var before := steps[..d];
    RunPrefix(boot, steps, d);
    RunKeepsBases(boot, before);
    StepRequests(Run(boot, before).value, steps[d], k);
    RequestsAreRaises(boot, before, k);
    c :| RaisedAt(boot, before, c, |before|, k);
    forall e: nat | c < e < d ensures steps[e] != Lower(k) && !DeliveredAt(boot, steps, e, k) {
      assert before[..e] == steps[..e] && before[e] == steps[e];
    }
  }

  ////////////////////////////////////////////////////////////////////////////
  // The frame about to be checked
  ////////////////////////////////////////////////////////////////////////////

  /** Only the innermost frame can be before its check, and then IF is clear. */
  ghost predicate EnteredOnTop(m: Machine) {
    && (forall i :: 0 <= i < |m.frames| - 1 ==> !m.frames[i].stage.Entered?)
    && (m.frames != [] && Top(m).stage.Entered? ==> !m.cpuIf && m.ack.Idle?)
    && (!m.ack.Idle? ==> m.cpuIf)
  }

  lemma {:induction false} StepKeepsEnteredOnTop(m: Machine, st: Step)
    requires EnteredOnTop(m) && Enabled(m, st)
    ensures EnteredOnTop(Next(m, st))
  {
    hide MasterChoice, SlaveChoice, WriteCommand, Highest;
  }

  lemma {:induction false} RunKeepsEnteredOnTop(boot: Machine, steps: seq<Step>)
    requires EnteredOnTop(boot) && Run(boot, steps).Some?
    ensures EnteredOnTop(Run(boot, steps).value)
  {
    hide Enabled, Next, EnteredOnTop;
    if steps == [] {
    } else {
      var init := steps[..|steps| - 1];
      RunKeepsEnteredOnTop(boot, init);
      StepKeepsEnteredOnTop(Run(boot, init).value, steps[|steps| - 1]);
    }
  }

  /** A step that leaves such a frame on top delivered it or left all frames alone. */
  lemma {:induction false} EnteredStays(m: Machine, st: Step, k: nat)
    requires EnteredOnTop(m) && Enabled(m, st) && !Delivers(m, st, k)
    requires AtStage(Next(m, st), Entered) && Top(Next(m, st)).genuine && Top(Next(m, st)).vector == 32 + k
    ensures AtStage(m, Entered) && Next(m, st).frames == m.frames
  {
    hide MasterChoice, SlaveChoice, WriteCommand, Highest;
  }

  /** A frame about to be checked was delivered by a step since which no frame changed. */
  lemma {:induction false} EnteredWasDelivered(boot: Machine, steps: seq<Step>, k: nat) returns (d: nat)
    requires boot.frames == [] && boot.ack.Idle? && Run(boot, steps).Some?
    requires AtStage(Run(boot, steps).value, Entered) && Top(Run(boot, steps).value).genuine
    requires Top(Run(boot, steps).value).vector == 32 + k
    ensures DeliveredAt(boot, steps, d, k)
    ensures Run(boot, steps[..d + 1]).Some?
    ensures Run(boot, steps[..d + 1]).value.frames == Run(boot, steps).value.frames
  {
    hide Next, Enabled, Delivers;
    var init, st := steps[..|steps| - 1], steps[|steps| - 1];
    var m := Run(boot, init).value;
    assert steps == init + [st];
    if Delivers(m, st, k) {
      d := |init|;
      DeliveredLast(boot, init, st, m, k);
      assert steps[..d + 1] == steps;
    } else {
      RunKeepsEnteredOnTop(boot, init);
      EnteredStays(m, st, k);
      d := EnteredWasDelivered(boot, init, k);
      DeliveredBefore(boot, init, st, d, k);
      assert init[..d + 1] == steps[..d + 1];
    }
  }

  /** A genuine frame of line k about to be checked goes back to the rise of line k. */
  ghost predicate CameFromRise(boot: Machine, steps: seq<Step>, c: nat, d: nat, k: nat) {
    && DeliveredAt(boot, steps, d, k) && RaisedAt(boot, steps, c, d, k)
    && Run(boot, steps[..d + 1]).Some? && Run(boot, steps).Some?
    && Run(boot, steps[..d + 1]).value.frames == Run(boot, steps).value.frames
  }

  ghost predicate WasRaised(boot: Machine, steps: seq<Step>, k: nat) {
    exists c: nat, d: nat :: CameFromRise(boot, steps, c, d, k)
  }

  lemma {:induction false} EnteredWasRaised(boot: Machine, steps: seq<Step>, k: nat) returns (c: nat, d: nat)
    requires boot.frames == [] && boot.ack.Idle? && Based(boot) && NoRequests(boot) && Run(boot, steps).Some?
    requires AtStage(Run(boot, steps).value, Entered) && Top(Run(boot, steps).value).genuine
    requires Top(Run(boot, steps).value).vector == 32 + k
    ensures CameFromRise(boot, steps, c, d, k)
  {
    hide Delivers, RaisedAt, Based;
    d := EnteredWasDelivered(boot, steps, k);
    c := EveryDeliveryWasRaised(boot, steps, d, k);
  }
}
