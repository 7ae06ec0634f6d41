/** RTC_Update's read-until-two-passes-agree loop against a clock that may tick between any
    two register reads. */
module Rtc {
  import opened Basics

  /** What the CMOS registers show, raw. */
  datatype Face = Face(second: Byte, minute: Byte, hour: Byte, day: Byte, month: Byte, year: Byte)

  /** The clock: the face at every second since some epoch. */
  type Clock = nat -> Face

  /** The registers, each at its own time. */
  function FaceAt(clock: Clock, at: seq<nat>): Face
    requires |at| == 6
  {
    Face(clock(at[0]).second, clock(at[1]).minute, clock(at[2]).hour,
         clock(at[3]).day, clock(at[4]).month, clock(at[5]).year)
  }

  /** A pass reads the six registers one after the other, at the times given. */
  ghost predicate ReadsAt(clock: Clock, at: seq<nat>, raw: Face) {
    && |at| == 6
    && (forall i, j :: 0 <= i < j < 6 ==> at[i] <= at[j])
    && raw == FaceAt(clock, at)
  }

  /** The five registers the loop compares with the previous pass. */
  predicate SamePass(a: Face, b: Face) {
    a.second == b.second && a.minute == b.minute && a.hour == b.hour
    && a.month == b.month && a.year == b.year
  }

  /** The clock shows the kept second, minute, hour, month and year at time t. */
  predicate Shows(clock: Clock, t: nat, raw: Face) {
    && clock(t).second == raw.second && clock(t).minute == raw.minute && clock(t).hour == raw.hour
    && clock(t).month == raw.month && clock(t).year == raw.year
  }

  ////////////////////////////////////////////////////////////////////////////
  // Passes
  ////////////////////////////////////////////////////////////////////////////

  /** What the environment does: before each access to the chip so many seconds pass, and the
      update flag then reads as given.  When it is used up the run has not left the routine yet. */
  type Script = seq<(nat, bool)>

  /** One pass over the registers: the times of the six reads, and what they gave. */
  type Times = at: seq<nat> | |at| == 6 witness [0, 0, 0, 0, 0, 0]
  datatype Pass = Pass(at: Times, raw: Face)
  datatype Reading = Reading(pass: Pass, now: nat, rest: Script)

  function ReadTimes(now: nat, script: Script): Times
    requires |script| >= 6
  {
    var t0 := now + script[0].0;
    var t1 := t0 + script[1].0;
    var t2 := t1 + script[2].0;
    var t3 := t2 + script[3].0;
    var t4 := t3 + script[4].0;
    [t0, t1, t2, t3, t4, t4 + script[5].0]
  }

  /** The next pass the script completes: the flag has to read clear, then come six reads. */
  function NextPass(clock: Clock, now: nat, script: Script): (r: Option<Reading>)
    ensures r.Some? ==> |r.value.rest| < |script|
    decreases |script|
  {
    if script == [] then None
    else if script[0].1 then NextPass(clock, now + script[0].0, script[1..])
    else if |script| < 7 then None
    else
      var at := ReadTimes(now + script[0].0, script[1..]);
      Some(Reading(Pass(at, FaceAt(clock, at)), at[5], script[7..]))
  }

  /** All the passes it completes. */
  function Passes(clock: Clock, now: nat, script: Script): seq<Pass>
    decreases |script|
  {
    match NextPass(clock, now, script)
    case None => []
    case Some(r) => [r.pass] + Passes(clock, r.now, r.rest)
  }

  lemma {:induction false} PassesUnfold(clock: Clock, now: nat, script: Script)
    ensures Passes(clock, now, script) ==
      match NextPass(clock, now, script)
      case None => []
      case Some(r) => [r.pass] + Passes(clock, r.now, r.rest)
  {
  }

  lemma {:induction false} NextPassReads(clock: Clock, now: nat, script: Script)
    ensures match NextPass(clock, now, script)
      case None => true
      case Some(r) => ReadsAt(clock, r.pass.at, r.pass.raw) && now <= r.pass.at[0] && r.pass.at[5] == r.now
    decreases |script|
  {
    if script == [] || !script[0].1 {
    } else {
      NextPassReads(clock, now + script[0].0, script[1..]);
    }
  }

  ////////////////////////////////////////////////////////////////////////////
  // Passes by the accesses of the script
  ////////////////////////////////////////////////////////////////////////////

  /** The seconds that pass before and with the first n accesses. */
  function Elapsed(script: Script, n: nat): nat
    requires n <= |script|
  {
    if n == 0 then 0 else Elapsed(script, n - 1) + script[n - 1].0
  }

  lemma {:induction false} ElapsedSplit(script: Script, a: nat, b: nat)
    requires a + b <= |script|
    ensures Elapsed(script, a + b) == Elapsed(script, a) + Elapsed(script[a..], b)
  {
    if b == 0 {
    } else {
      ElapsedSplit(script, a, b - 1);
      assert script[a..][b - 1] == script[a + b - 1];
    }
  }

  /** From access `from` on, number `clear` is the first whose flag reads clear, and six more
      accesses follow. */
  ghost predicate ClearAt(script: Script, from: nat, clear: nat) {
    && from <= clear && clear + 7 <= |script| && !script[clear].1
    && forall j :: from <= j < clear ==> script[j].1
  }

  /** What the pass behind that access reads: each register at one of the six. */
  ghost predicate PassBehind(clock: Clock, now: nat, script: Script, clear: nat, pass: Pass) {
    && clear + 7 <= |script|
    && (forall r :: 0 <= r < 6 ==> pass.at[r] == now + Elapsed(script, clear + 2 + r))
    && pass.raw.second == clock(pass.at[0]).second && pass.raw.minute == clock(pass.at[1]).minute
    && pass.raw.hour == clock(pass.at[2]).hour && pass.raw.day == clock(pass.at[3]).day
    && pass.raw.month == clock(pass.at[4]).month && pass.raw.year == clock(pass.at[5]).year
  }

  /** Shifting a search by the accesses before it. */
  lemma {:induction false} ClearShifted(script: Script, skip: nat, from: nat, clear: nat)
    requires skip + from <= |script|
    ensures ClearAt(script[skip..], from, clear) <==> ClearAt(script, skip + from, skip + clear)
  {
    var rest := script[skip..];
    if ClearAt(rest, from, clear) {
      forall j | skip + from <= j < skip + clear ensures script[j].1 {
        assert script[j] == rest[j - skip];
      }
    }
    if ClearAt(script, skip + from, skip + clear) {
      forall j | from <= j < clear ensures rest[j].1 {
        assert rest[j] == script[skip + j];
      }
    }
  }

  lemma {:induction false} PassShifted(clock: Clock, now: nat, script: Script, skip: nat, clear: nat, pass: Pass)
    requires skip <= |script|
    requires PassBehind(clock, now + Elapsed(script, skip), script[skip..], clear, pass)
    ensures PassBehind(clock, now, script, skip + clear, pass)
  {
    forall r | 0 <= r < 6 ensures pass.at[r] == now + Elapsed(script, skip + clear + 2 + r) {
      ElapsedSplit(script, skip, clear + 2 + r);
    }
  }

  /** The access at which the search starts, passed over when its flag is set. */
  lemma {:induction false} ClearFrom(script: Script, from: nat, clear: nat)
    requires from < |script| && script[from].1
    ensures ClearAt(script, from, clear) <==> ClearAt(script, from + 1, clear)
  {
  }

  lemma {:induction false} ReadTimesAre(now: nat, script: Script, r: nat)
    requires |script| >= 7 && r < 6
    ensures ReadTimes(now + script[0].0, script[1..])[r] == now + Elapsed(script, 2 + r)
  {
    assert Elapsed(script, 1) == script[0].0;
    assert Elapsed(script, 2) == Elapsed(script, 1) + script[1].0;
    assert Elapsed(script, 3) == Elapsed(script, 2) + script[2].0;
    assert Elapsed(script, 4) == Elapsed(script, 3) + script[3].0;
    assert Elapsed(script, 5) == Elapsed(script, 4) + script[4].0;
    assert Elapsed(script, 6) == Elapsed(script, 5) + script[5].0;
  }

  /** From access `from` on the script ends before another pass is read. */
  ghost predicate NoPassFrom(script: Script, from: nat) {
    forall c: nat :: !ClearAt(script, from, c)
  }

  /** A reading is of the pass behind that access, or there is none to be made. */
  ghost predicate ReadingIs(clock: Clock, now: nat, script: Script, clear: nat, r: Option<Reading>) {
    match r
    case None => NoPassFrom(script, 0)
    case Some(r) =>
      && ClearAt(script, 0, clear) && PassBehind(clock, now, script, clear, r.pass)
      && r.now == now + Elapsed(script, clear + 7) && r.rest == script[clear + 7..]
  }

  /** The next pass waits for the first clear flag and reads behind it; there is none exactly
      when the script ends before that. */
  lemma {:induction false} NextPassIs(clock: Clock, now: nat, script: Script) returns (clear: nat)
    ensures ReadingIs(clock, now, script, clear, NextPass(clock, now, script))
    decreases |script|
  {
    clear := 0;
    if script == [] {
    } else if script[0].1 {
      var c := NextPassIs(clock, now + script[0].0, script[1..]);
      clear := c + 1;
      BusyFirst(clock, now, script, c, NextPass(clock, now, script));
    } else if |script| >= 7 {
      ReadAtOnce(clock, now, script);
    }
  }

  lemma {:induction false} BusyFirst(clock: Clock, now: nat, script: Script, c: nat, r: Option<Reading>)
    requires script != [] && script[0].1
    requires ReadingIs(clock, now + script[0].0, script[1..], c, r)
    ensures ReadingIs(clock, now, script, c + 1, r)
  {
    hide ClearAt, PassBehind;
    assert Elapsed(script, 1) == script[0].0;
    if r.None? {
      forall d: nat ensures !ClearAt(script, 0, d) {
        BusyIsNotClear(script);
        if d > 0 {
          ClearFrom(script, 0, d);
          ClearShifted(script, 1, 0, d - 1);
        }
      }
    } else {
      ClearFits(script[1..], 0, c);
      ClearFrom(script, 0, c + 1);
      ClearShifted(script, 1, 0, c);
      PassShifted(clock, now, script, 1, c, r.value.pass);
      ElapsedSplit(script, 1, c + 7);
      assert script[1..][c + 7..] == script[c + 8..];
    }
  }

  lemma {:induction false} BusyIsNotClear(script: Script)
    requires script != [] && script[0].1
    ensures !ClearAt(script, 0, 0)
  {
  }

  lemma {:induction false} ReadAtOnce(clock: Clock, now: nat, script: Script)
    requires |script| >= 7 && !script[0].1
    ensures ReadingIs(clock, now, script, 0, NextPass(clock, now, script))
  {
    ReadTimesAre(now, script, 0);
    ReadTimesAre(now, script, 1);
    ReadTimesAre(now, script, 2);
    ReadTimesAre(now, script, 3);
    ReadTimesAre(now, script, 4);
    ReadTimesAre(now, script, 5);
  }

  lemma {:induction false} ClearFits(script: Script, from: nat, clear: nat)
    requires ClearAt(script, from, clear)
    ensures from <= clear && clear + 7 <= |script|
  {
  }

  /** Where pass i of the script starts to wait. */
  function WaitsFrom(clear: seq<nat>, i: nat): nat
    requires i <= |clear|
  {
    if i == 0 then 0 else clear[i - 1] + 7
  }

  /** Access clear[i] is the first with the flag clear since pass i - 1 was read, and pass i is
      read behind it; after the last no flag lets another pass be read. */
  ghost predicate PassesBehind(clock: Clock, now: nat, script: Script, clear: seq<nat>, passes: seq<Pass>) {
    && |clear| == |passes|
    && (forall i :: 0 <= i < |passes| ==>
          ClearAt(script, WaitsFrom(clear, i), clear[i]) && PassBehind(clock, now, script, clear[i], passes[i]))
    && NoPassFrom(script, WaitsFrom(clear, |clear|))
  }

  /** All flags before access `clear` read set and that one clear; then came one access for each
      register, in this order. */
  ghost predicate WaitedAndRead(clock: Clock, now: nat, script: Script, clear: nat,
                                raw: Face, after: nat, rest: Script)
  {
    && clear + 7 <= |script| && !script[clear].1
    && (forall j :: 0 <= j < clear ==> script[j].1)
    && raw.second == clock(now + Elapsed(script, clear + 2)).second
    && raw.minute == clock(now + Elapsed(script, clear + 3)).minute
    && raw.hour == clock(now + Elapsed(script, clear + 4)).hour
    && raw.day == clock(now + Elapsed(script, clear + 5)).day
    && raw.month == clock(now + Elapsed(script, clear + 6)).month
    && raw.year == clock(now + Elapsed(script, clear + 7)).year
    && after == now + Elapsed(script, clear + 7) && rest == script[clear + 7..]
  }

  lemma {:induction false} ReadingByAccesses(clock: Clock, now: nat, script: Script, clear: nat, r: Option<Reading>)
    requires ReadingIs(clock, now, script, clear, r)
    ensures r.Some? ==> WaitedAndRead(clock, now, script, clear, r.value.pass.raw, r.value.now, r.value.rest)
    ensures r.None? ==> NoPassFrom(script, 0)
  {
    hide Elapsed;
  }

  /** All the passes of a script, by its accesses. */
  lemma {:induction false} PassesAre(clock: Clock, now: nat, script: Script) returns (clear: seq<nat>)
    ensures PassesBehind(clock, now, script, clear, Passes(clock, now, script))
    decreases |script|
  {
    hide NextPass, ClearAt, PassBehind, NoPassFrom, PassesBehind;
    var c := NextPassIs(clock, now, script);
    match NextPass(clock, now, script)
    case None =>
      clear := [];
      NoPassesYet(clock, now, script);
    case Some(r) =>
      ClearFits(script, 0, c);
      var skip := c + 7;
      var later := PassesAre(clock, r.now, r.rest);
      clear := [c] + seq(|later|, i requires 0 <= i < |later| => skip + later[i]);
      PassesLater(clock, now, script, c, r.pass, later, Passes(clock, r.now, r.rest), clear);
  }

  lemma {:induction false} NoPassesYet(clock: Clock, now: nat, script: Script)
    requires NoPassFrom(script, 0)
    ensures PassesBehind(clock, now, script, [], [])
  {
  }

  lemma {:induction false} PassesLater(clock: Clock, now: nat, script: Script, c: nat, pass: Pass,
                                       later: seq<nat>, passes: seq<Pass>, clear: seq<nat>)
    requires c + 7 <= |script| && ClearAt(script, 0, c) && PassBehind(clock, now, script, c, pass)
    requires PassesBehind(clock, now + Elapsed(script, c + 7), script[c + 7..], later, passes)
    requires |clear| == 1 + |later| && clear[0] == c
    requires forall i :: 0 <= i < |later| ==> clear[i + 1] == c + 7 + later[i]
    ensures PassesBehind(clock, now, script, clear, [pass] + passes)
  {
    hide ClearAt, PassBehind, NoPassFrom, WaitsFrom;
    var skip, all := c + 7, [pass] + passes;
    forall i | 0 <= i < |all|
      ensures ClearAt(script, WaitsFrom(clear, i), clear[i]) && PassBehind(clock, now, script, clear[i], all[i])
    {
      if i == 0 {
        assert WaitsFrom(clear, 0) == 0 by { WaitsFirst(clear); }
      } else {
        WaitsLater(clear, later, c, i - 1);
        OnePassLater(clock, now, script, skip, WaitsFrom(later, i - 1), later[i - 1], passes[i - 1]);
      }
    }
    WaitsLater(clear, later, c, |later|);
    LastFits(script[skip..], later);
    NoneLater(script, skip, WaitsFrom(later, |later|));
  }

  lemma {:induction false} WaitsFirst(clear: seq<nat>)
    ensures WaitsFrom(clear, 0) == 0
  {
  }

  lemma {:induction false} WaitsLater(clear: seq<nat>, later: seq<nat>, c: nat, i: nat)
    requires |clear| == 1 + |later| && clear[0] == c && i <= |later|
    requires forall i :: 0 <= i < |later| ==> clear[i + 1] == c + 7 + later[i]
    ensures WaitsFrom(clear, i + 1) == c + 7 + WaitsFrom(later, i)
  {
    if i > 0 {
      assert clear[i] == c + 7 + later[i - 1];
    }
  }

  lemma {:induction false} LastFits(script: Script, clear: seq<nat>)
    requires forall i :: 0 <= i < |clear| ==> ClearAt(script, WaitsFrom(clear, i), clear[i])
    ensures WaitsFrom(clear, |clear|) <= |script|
  {
    if clear != [] {
      ClearFits(script, WaitsFrom(clear, |clear| - 1), clear[|clear| - 1]);
    }
  }

  lemma {:induction false} OnePassLater(clock: Clock, now: nat, script: Script, skip: nat,
                                        from: nat, clear: nat, pass: Pass)
    requires skip <= |script| && ClearAt(script[skip..], from, clear)
    requires PassBehind(clock, now + Elapsed(script, skip), script[skip..], clear, pass)
    ensures ClearAt(script, skip + from, skip + clear) && PassBehind(clock, now, script, skip + clear, pass)
  {
    ClearFits(script[skip..], from, clear);
    ClearShifted(script, skip, from, clear);
    PassShifted(clock, now, script, skip, clear, pass);
  }

  lemma {:induction false} NoneLater(script: Script, skip: nat, from: nat)
    requires skip + from <= |script| && NoPassFrom(script[skip..], from)
    ensures NoPassFrom(script, skip + from)
  {
    hide ClearAt;
    var start := skip + from;
    forall d: nat ensures !ClearAt(script, start, d) {
      if ClearAt(script, start, d) {
        ClearFits(script, start, d);
        ClearShifted(script, skip, from, d - skip);
      }
    }
  }

  lemma {:induction false} ReadsInOrder(clock: Clock, pass: Pass)
    requires ReadsAt(clock, pass.at, pass.raw)
    ensures pass.at[0] <= pass.at[5]
  {
  }

  /** A pass holds each register's value at the time of its read, and passes follow one another. */
  lemma {:induction false} PassesFollow(clock: Clock, now: nat, script: Script, i: nat)
    requires i < |Passes(clock, now, script)|
    ensures var passes := Passes(clock, now, script);
      && ReadsAt(clock, passes[i].at, passes[i].raw)
      && now <= passes[i].at[0]
      && (i > 0 ==> passes[i - 1].at[5] <= passes[i].at[0])
    decreases |script|
  {
    hide NextPass, ReadsAt;
    var r := NextPass(clock, now, script).value;
    NextPassReads(clock, now, script);
    ReadsInOrder(clock, r.pass);
    if i == 0 {
    } else {
      PassesFollow(clock, r.now, r.rest, i - 1);
    }
  }

  /** The loop's test, negated: the five registers agree, and the day is what the variable holds. */
  predicate Leaves(previous: Pass, current: Pass, lastDay: Byte) {
    SamePass(previous.raw, current.raw) && current.raw.day == lastDay
  }

  /** Register by register: the previous pass's day plays no part. */
  lemma {:induction false} LeavesByRegister(a: Pass, b: Pass, lastDay: Byte)
    ensures Leaves(a, b, lastDay) <==>
      && a.raw.second == b.raw.second && a.raw.minute == b.raw.minute && a.raw.hour == b.raw.hour
      && a.raw.month == b.raw.month && a.raw.year == b.raw.year && b.raw.day == lastDay
  {
  }

  /** The first two passes in a row that let the loop go. */
  ghost predicate LeavesFirst(passes: seq<Pass>, turn: nat, lastDay: Byte) {
    && turn < |passes| - 1 && Leaves(passes[turn], passes[turn + 1], lastDay)
    && NoneLeaves(passes, turn, lastDay)
  }

  /** Of the first n passes none lets the loop go with the one after it. */
  ghost predicate NoneLeaves(passes: seq<Pass>, n: nat, lastDay: Byte) {
    forall i :: 0 <= i < n && i < |passes| - 1 ==> !Leaves(passes[i], passes[i + 1], lastDay)
  }

  lemma {:induction false} OneMoreStays(passes: seq<Pass>, n: nat, lastDay: Byte)
    requires NoneLeaves(passes, n, lastDay)
    requires n < |passes| - 1 ==> !Leaves(passes[n], passes[n + 1], lastDay)
    ensures NoneLeaves(passes, n + 1, lastDay)
  {
    hide Leaves;
  }

  /** Within a minute a value of the seconds register names one second. */
  ghost predicate SecondsTell(clock: Clock) {
    forall t: nat, u: nat :: t <= u < t + 60 && clock(t).second == clock(u).second ==> t == u
  }

  ////////////////////////////////////////////////////////////////////////////
  // The code
  ////////////////////////////////////////////////////////////////////////////

  /** The chip behind the two ports. */
  class Cmos {
    const clock: Clock
    var now: nat
    var script: Script

    constructor (clock: Clock, script: Script)
      ensures this.clock == clock && now == 0 && this.script == script
    {
      this.clock := clock;
      now := 0;
      this.script := script;
    }

    method Access() returns (busy: bool)
      requires script != []
      modifies `now, `script
      ensures now == old(now) + old(script)[0].0 && busy == old(script)[0].1
      ensures script == old(script)[1..]
    {
      now := now + script[0].0;
      busy := script[0].1;
      script := script[1..];
    }

    /** Three register reads: the faces the clock shows at them. */
    method ReadThree() returns (first: Face, second: Face, third: Face)
      requires |script| >= 3
      modifies `now, `script
      ensures var s := old(script);
        var t0 := old(now) + s[0].0;
        var t1 := t0 + s[1].0;
        && first == clock(t0) && second == clock(t1) && third == clock(t1 + s[2].0)
        && now == t1 + s[2].0 && script == s[3..]
    {
      var busy := Access();
      first := clock(now);
      busy := Access();
      second := clock(now);
      busy := Access();
      third := clock(now);
    }

    /** The six register reads. */
    method ReadRegisters() returns (raw: Face)
      requires |script| >= 6
      modifies `now, `script
      ensures var at := ReadTimes(old(now), old(script));
        raw == FaceAt(clock, at) && now == at[5] && script == old(script)[6..]
    {
      var first, second, third := ReadThree();
      raw := Face(first.second, second.minute, third.hour, 0, 0, 0);
      first, second, third := ReadThree();
      raw := raw.(day := first.day, month := second.month, year := third.year);
    }

    /** Wait until no update is in progress, then read the registers. */
    method ReadPass() returns (raw: Option<Face>, ghost clear: nat)
      modifies `now, `script
      ensures match NextPass(clock, old(now), old(script))
        case None => raw == None
        case Some(r) => raw == Some(r.pass.raw) && now == r.now && script == r.rest
      ensures raw.None? ==> NoPassFrom(old(script), 0)
      ensures raw.Some? ==> WaitedAndRead(clock, old(now), old(script), clear, raw.value, now, script)
    {
      hide NextPass, WaitedAndRead, NoPassFrom;
      raw := WaitAndRead();
      clear := NextPassIs(clock, old(now), old(script));
      ReadingByAccesses(clock, old(now), old(script), clear, NextPass(clock, old(now), old(script)));
    }

    method WaitAndRead() returns (raw: Option<Face>)
      modifies `now, `script
      ensures match NextPass(clock, old(now), old(script))
        case None => raw == None
        case Some(r) => raw == Some(r.pass.raw) && now == r.now && script == r.rest
    {
      hide FaceAt;
      ghost var goal := NextPass(clock, now, script);
      while true
        invariant NextPass(clock, now, script) == goal
        decreases |script|
      {
        if script == [] {
          return None;
        }
        label access:
        var busy := Access();
        if !busy {
          if |script| < 6 {
            return None;
          }
          var face := ReadRegisters();
          assert old@access(script)[7..] == old@access(script)[1..][6..];
          return Some(face);
        }
      }
    }

    /** RTC_Update up to the end of its loop.  `lastDay` is the variable the loop compares but
        never sets.  The loop is left after the first two passes in a row that let it go, with
        what the second of them read; when there are none it goes on.  `clear` are the accesses
        that found the flag clear.  If those two read the
        seconds less than a minute apart, the kept values were all on the clock at one time. */
    method Update(lastDay: Byte) returns (kept: Option<Face>, ghost turn: nat, ghost clear: seq<nat>)
      modifies `now, `script
      ensures PassesBehind(clock, old(now), old(script), clear, Passes(clock, old(now), old(script)))
      ensures var passes := Passes(clock, old(now), old(script));
        && (kept.None? ==> NoneLeaves(passes, |passes|, lastDay))
        && (kept.Some? ==> LeavesFirst(passes, turn, lastDay) && kept.value == passes[turn + 1].raw)
        && (kept.Some? && SecondsTell(clock) && passes[turn + 1].at[0] < passes[turn].at[0] + 60 ==>
              Shows(clock, passes[turn].at[0], kept.value))
    {
      hide NextPass, SecondsTell, Shows, ReadsAt, NoneLeaves, PassesBehind, WaitedAndRead, NoPassFrom;
      clear := PassesAre(clock, now, script);
      ghost var passes := Passes(clock, now, script);
      PassesUnfold(clock, now, script);
      turn := 0;
      assert NoneLeaves(passes, 0, lastDay) by { NoneYet(passes, lastDay); }
      var current;
      ghost var first;
      current, first := ReadPass();
      if current.None? {
        NoneLeft(passes, 0, lastDay);
        return None, 0, clear;
      }
      while true
        invariant turn < |passes| && current == Some(passes[turn].raw)
        invariant Passes(clock, now, script) == passes[turn + 1..]
        invariant NoneLeaves(passes, turn, lastDay)
        decreases |passes| - turn
      {
        var previous := current.value;
        PassesUnfold(clock, now, script);
        current, first := ReadPass();
        if current.None? {
          NoneLeft(passes, turn, lastDay);
          return None, turn, clear;
        }
        assert passes[turn + 1..][1..] == passes[turn + 2..];
        var c := current.value;
        if !(previous.second != c.second || previous.minute != c.minute || previous.hour != c.hour
             || lastDay != c.day || previous.month != c.month || previous.year != c.year) {
          assert LeavesFirst(passes, turn, lastDay);
          SnapshotAtExit(clock, old(now), old(script), turn, lastDay);
          return current, turn, clear;
        }
        OneMoreStays(passes, turn, lastDay);
        turn := turn + 1;
      }
    }
  }

  lemma {:induction false} NoneYet(passes: seq<Pass>, lastDay: Byte)
    ensures NoneLeaves(passes, 0, lastDay)
  {
  }

  lemma {:induction false} NoneLeft(passes: seq<Pass>, n: nat, lastDay: Byte)
    requires NoneLeaves(passes, n, lastDay) && |passes| <= n + 1
    ensures NoneLeaves(passes, |passes|, lastDay)
  {
  }

  lemma {:induction false} SnapshotAtExit(clock: Clock, now: nat, script: Script, turn: nat, lastDay: Byte)
    requires LeavesFirst(Passes(clock, now, script), turn, lastDay)
    ensures var passes := Passes(clock, now, script);
      SecondsTell(clock) && passes[turn + 1].at[0] < passes[turn].at[0] + 60 ==>
        Shows(clock, passes[turn].at[0], passes[turn + 1].raw)
  {
    hide Passes, ReadsAt, SecondsTell, Shows;
    var passes := Passes(clock, now, script);
    PassesFollow(clock, now, script, turn);
    PassesFollow(clock, now, script, turn + 1);
    if SecondsTell(clock) && passes[turn + 1].at[0] < passes[turn].at[0] + 60 {
      ClockSnapshot(clock, passes[turn].at, passes[turn].raw, passes[turn + 1].at, passes[turn + 1].raw);
    }
  }

  /** What lets the loop go is two passes in a row within one second of the clock, read while
      the day register shows what the variable happens to hold. */
  lemma {:induction false} StillClockLeaves(clock: Clock, before: Pass, current: Pass, lastDay: Byte)
    requires ReadsAt(clock, before.at, before.raw) && ReadsAt(clock, current.at, current.raw)
    requires before.at[0] == current.at[5] && before.at[5] <= current.at[0]
    ensures Leaves(before, current, lastDay) <==> clock(current.at[0]).day == lastDay
  {
  }

  /** While the day register does not show what the variable holds, the loop goes on. */
  lemma {:induction false} WrongDayNeverLeaves(clock: Clock, now: nat, script: Script, lastDay: Byte, i: nat)
    requires forall t: nat :: t >= now ==> clock(t).day != lastDay
    requires i < |Passes(clock, now, script)| - 1
    ensures !Leaves(Passes(clock, now, script)[i], Passes(clock, now, script)[i + 1], lastDay)
  {
    hide Passes;
    PassesFollow(clock, now, script, i + 1);
    assert now <= Passes(clock, now, script)[i + 1].at[3];
  }

  ////////////////////////////////////////////////////////////////////////////
  // When the kept values are a snapshot
  ////////////////////////////////////////////////////////////////////////////

  /** Two agreeing passes that read the seconds less than a minute apart were made within one
      second: the kept values were all on the clock at that instant. */
  lemma {:induction false} ClockSnapshot(clock: Clock, before: seq<nat>, last: Face, at: seq<nat>, kept: Face)
    requires SecondsTell(clock)
    requires ReadsAt(clock, before, last) && ReadsAt(clock, at, kept) && before[5] <= at[0]
    requires SamePass(last, kept)
    requires at[0] - before[0] < 60
    ensures Shows(clock, before[0], kept)
    ensures forall i :: 0 <= i < 6 ==> before[i] == before[0]
  {
  }

  datatype Register = Minute | Hour | Month | Year

  function Read(face: Face, register: Register): Byte {
    match register
    case Minute => face.minute
    case Hour => face.hour
    case Month => face.month
    case Year => face.year
  }

  /** A compared register that reads the same at the two ends of a window shorter than
      `window` seconds read the same throughout. */
  ghost predicate SteadyClock(clock: Clock, window: nat) {
    forall register, a: nat, t: nat, b: nat ::
      a <= t <= b < a + window && Read(clock(a), register) == Read(clock(b), register) ==>
        Read(clock(t), register) == Read(clock(a), register)
  }

  /** However far apart the seconds reads are: if the two agreeing passes together took less
      than the window in which no compared register can come back to a value, the kept values
      were on the clock when the second pass read the seconds. */
  lemma {:induction false} SnapshotWithinWindow(clock: Clock, window: nat,
                                                before: seq<nat>, last: Face, at: seq<nat>, kept: Face)
    requires SteadyClock(clock, window)
    requires ReadsAt(clock, before, last) && ReadsAt(clock, at, kept) && before[5] <= at[0]
    requires SamePass(last, kept)
    requires at[5] - before[0] < window
    ensures Shows(clock, at[0], kept)
  {
    SameBetween(clock, window, Minute, before[1], at[0], at[1]);
    SameBetween(clock, window, Hour, before[2], at[0], at[2]);
    SameBetween(clock, window, Month, before[4], at[0], at[4]);
    SameBetween(clock, window, Year, before[5], at[0], at[5]);
  }

  lemma {:induction false} SameBetween(clock: Clock, window: nat, register: Register, a: nat, t: nat, b: nat)
    requires SteadyClock(clock, window) && a <= t <= b < a + window
    requires Read(clock(a), register) == Read(clock(b), register)
    ensures Read(clock(t), register) == Read(clock(b), register)
  {
  }

  ////////////////////////////////////////////////////////////////////////////
  // The PC's clock
  ////////////////////////////////////////////////////////////////////////////

  /** Binary-coded decimal. */
  function Bcd(n: nat): Byte
    requires n < 100
  {
    n / 10 * 16 + n % 10
  }

  lemma {:induction false} BcdTells(m: nat, n: nat)
    requires m < 100 && n < 100 && Bcd(m) == Bcd(n)
    ensures m == n
  {
  }

  /** A 24-hour BCD clock over any calendar of days. */
  function WallClock(day: nat -> Byte, month: nat -> Byte, year: nat -> Byte): Clock {
    (t: nat) => Face(Bcd(t % 60), Bcd(t / 60 % 60), Bcd(t / 3600 % 24),
                     day(t / 86400), month(t / 86400), year(t / 86400))
  }

  /** A counter that has not gone full circle is back at its value only if it never moved. */
  lemma {:induction false} CounterIsSteady(a: nat, t: nat, b: nat, unit: nat, cycle: nat)
    requires unit > 0 && cycle > 0 && a <= t <= b && a / unit % cycle == b / unit % cycle
    requires b / unit - a / unit < cycle
    ensures t / unit == a / unit
  {
    Ordered(a, t, unit);
    Ordered(t, b, unit);
    var x, y := a / unit, b / unit;
    assert x <= y;
    NoFullCircle(x, y, cycle);
  }

  lemma {:induction false} Ordered(a: nat, b: nat, unit: nat)
    requires unit > 0 && a <= b
    ensures a / unit <= b / unit
  {
    var d := a / unit - b / unit;
    MultipleIsFar(d, unit);
    assert d * unit == (a - a % unit) - (b - b % unit);
  }

  lemma {:induction false} NoFullCircle(x: nat, y: nat, cycle: nat)
    requires cycle > 0 && x <= y < x + cycle && x % cycle == y % cycle
    ensures x == y
  {
    var d := y / cycle - x / cycle;
    MultipleIsFar(d, cycle);
    MultipleIsFar(-d, cycle);
    assert y - x == d * cycle;
    assert -d * cycle == -(d * cycle);
  }

  lemma {:induction false} MinuteIsSteady(a: nat, t: nat, b: nat)
    requires a <= t <= b < a + 3541 && Bcd(a / 60 % 60) == Bcd(b / 60 % 60)
    ensures Bcd(t / 60 % 60) == Bcd(a / 60 % 60)
  {
    BcdTells(a / 60 % 60, b / 60 % 60);
    CounterIsSteady(a, t, b, 60, 60);
  }

  lemma {:induction false} HourIsSteady(a: nat, t: nat, b: nat)
    requires a <= t <= b < a + 3541 && Bcd(a / 3600 % 24) == Bcd(b / 3600 % 24)
    ensures Bcd(t / 3600 % 24) == Bcd(a / 3600 % 24)
  {
    BcdTells(a / 3600 % 24, b / 3600 % 24);
    CounterIsSteady(a, t, b, 3600, 24);
  }

  lemma {:induction false} DayIsAtAnEnd(a: nat, t: nat, b: nat)
    requires a <= t <= b < a + 3541
    ensures t / 86400 == a / 86400 || t / 86400 == b / 86400
  {
  }

  lemma {:induction false} WallClockSeconds(day: nat -> Byte, month: nat -> Byte, year: nat -> Byte)
    ensures SecondsTell(WallClock(day, month, year))
  {
    hide Bcd;
    var clock := WallClock(day, month, year);
    forall t: nat, u: nat | t <= u < t + 60 && clock(t).second == clock(u).second ensures t == u {
      BcdTells(t % 60, u % 60);
      NoFullCircle(t, u, 60);
    }
  }

  lemma {:induction false} WallClockRegister(day: nat -> Byte, month: nat -> Byte, year: nat -> Byte,
                          register: Register, a: nat, t: nat, b: nat)
    requires a <= t <= b < a + 3541
    requires Read(WallClock(day, month, year)(a), register) == Read(WallClock(day, month, year)(b), register)
    ensures Read(WallClock(day, month, year)(t), register) == Read(WallClock(day, month, year)(a), register)
  {
    hide Bcd;
    match register
    case Minute => MinuteIsSteady(a, t, b);
    case Hour => HourIsSteady(a, t, b);
    case Month => DayIsAtAnEnd(a, t, b);
    case Year => DayIsAtAnEnd(a, t, b);
  }

  /** The wall clock meets both conditions, the second one for windows below 59 minutes. */
  lemma {:induction false} WallClockTells(day: nat -> Byte, month: nat -> Byte, year: nat -> Byte)
    ensures SecondsTell(WallClock(day, month, year))
    ensures SteadyClock(WallClock(day, month, year), 3541)
  {
    WallClockSeconds(day, month, year);
    hide WallClock, Read;
    var clock := WallClock(day, month, year);
    forall register, a: nat, t: nat, b: nat
      | a <= t <= b < a + 3541 && Read(clock(a), register) == Read(clock(b), register)
      ensures Read(clock(t), register) == Read(clock(a), register)
    {
      WallClockRegister(day, month, year, register, a, t, b);
    }
  }

  ////////////////////////////////////////////////////////////////////////////
  // Exactly when the kept values are a snapshot
  ////////////////////////////////////////////////////////////////////////////

  /** Whatever two agreeing passes within the window keep was on the clock at some time from
      their first read to their last. */
  ghost predicate AlwaysSnapshot(clock: Clock, window: nat) {
    forall before: seq<nat>, last: Face, at: seq<nat>, kept: Face ::
      ReadsAt(clock, before, last) && ReadsAt(clock, at, kept) && before[5] <= at[0]
      && SamePass(last, kept) && at[5] - before[0] < window ==>
        exists t: nat :: before[0] <= t <= at[5] && Shows(clock, t, kept)
  }

  lemma {:induction false} WiderIsStronger(clock: Clock, narrow: nat, wide: nat)
    requires narrow <= wide && AlwaysSnapshot(clock, wide)
    ensures AlwaysSnapshot(clock, narrow)
  {
  }

  /** The kept values are always a snapshot exactly when the two passes have to take less than
      59 minutes and a second. */
  lemma {:induction false} SnapshotExactly(day: nat -> Byte, month: nat -> Byte, year: nat -> Byte, window: nat)
    ensures AlwaysSnapshot(WallClock(day, month, year), window) <==> window <= 3541
  {
    hide AlwaysSnapshot, WallClock;
    var clock := WallClock(day, month, year);
    if window <= 3541 {
      WallClockTells(day, month, year);
      SteadyIsSnapshot(clock);
      WiderIsStronger(clock, window, 3541);
    } else {
      TornExit(day, month, year, 0, window);
      if AlwaysSnapshot(clock, window) {
        PairsToExits(clock, window, day(0));
      }
    }
  }

  lemma {:induction false} SteadyIsSnapshot(clock: Clock)
    requires SteadyClock(clock, 3541)
    ensures AlwaysSnapshot(clock, 3541)
  {
    forall before: seq<nat>, last: Face, at: seq<nat>, kept: Face
      | ReadsAt(clock, before, last) && ReadsAt(clock, at, kept) && before[5] <= at[0]
        && SamePass(last, kept) && at[5] - before[0] < 3541
      ensures exists t: nat :: before[0] <= t <= at[5] && Shows(clock, t, kept)
    {
      SnapshotWithinWindow(clock, 3541, before, last, at, kept);
    }
  }

  /** Any two passes in order are the passes of some run of the loop. */
  lemma {:induction false} EveryPairIsARun(clock: Clock, before: seq<nat>, last: Face, at: seq<nat>, kept: Face)
    returns (script: Script)
    requires ReadsAt(clock, before, last) && ReadsAt(clock, at, kept) && before[5] <= at[0]
    ensures Passes(clock, 0, script) == [Pass(before, last), Pass(at, kept)]
  {
    hide NextPass, OnePass, FaceAt;
    var second := OnePass(at[0] - before[5], at);
    script := OnePass(before[0], before) + second;
    OnePassIsRead(clock, 0, before, last, second);
    OnePassIsRead(clock, before[5], at, kept, []);
    assert second + [] == second;
    assert NextPass(clock, at[5], []).None?;
    assert Passes(clock, at[5], []) == [];
    assert Passes(clock, before[5], second) == [Pass(at, kept)] + Passes(clock, at[5], []);
  }

  /** A script for one pass: the flag clear at once, and `wait` seconds to the first read. */
  function OnePass(wait: nat, at: seq<nat>): (script: Script)
    requires |at| == 6 && forall i, j :: 0 <= i < j < 6 ==> at[i] <= at[j]
    ensures |script| == 7
  {
    [(0, false), (wait, false), (at[1] - at[0], false), (at[2] - at[1], false),
     (at[3] - at[2], false), (at[4] - at[3], false), (at[5] - at[4], false)]
  }

  lemma {:induction false} OnePassIsRead(clock: Clock, now: nat, at: seq<nat>, raw: Face, rest: Script)
    requires ReadsAt(clock, at, raw) && now <= at[0]
    ensures NextPass(clock, now, OnePass(at[0] - now, at) + rest) == Some(Reading(Pass(at, raw), at[5], rest))
  {
    var script := OnePass(at[0] - now, at) + rest;
    assert script[7..] == rest;
    assert ReadTimes(now, script[1..]) == at;
  }

  ////////////////////////////////////////////////////////////////////////////
  // The same of the loop's exits
  ////////////////////////////////////////////////////////////////////////////

  /** Whatever run leaves the loop, after two passes within the window: what is kept was on
      the clock at some time from their first read to their last. */
  ghost predicate ExitsOnSnapshots(clock: Clock, window: nat, lastDay: Byte) {
    forall script: Script, turn: nat ::
      var passes := Passes(clock, 0, script);
      LeavesFirst(passes, turn, lastDay) && passes[turn + 1].at[5] - passes[turn].at[0] < window ==>
        ShownDuring(clock, passes[turn], passes[turn + 1])
  }

  ghost predicate ShownDuring(clock: Clock, before: Pass, current: Pass) {
    exists t: nat :: before.at[0] <= t <= current.at[5] && Shows(clock, t, current.raw)
  }

  /** The loop's exits are snapshots exactly within that window, or when the day register never
      shows what the variable holds, so that the loop is never left. */
  lemma {:induction false} ExitsOnSnapshotsExactly(day: nat -> Byte, month: nat -> Byte, year: nat -> Byte,
                                                   window: nat, lastDay: Byte)
    ensures ExitsOnSnapshots(WallClock(day, month, year), window, lastDay) <==>
      window <= 3541 || forall d: nat :: day(d) != lastDay
  {
    hide WallClock, ExitsOnSnapshots;
    var clock := WallClock(day, month, year);
    if window <= 3541 {
      SnapshotExactly(day, month, year, window);
      PairsToExits(clock, window, lastDay);
    } else if d: nat :| day(d) == lastDay {
      TornExit(day, month, year, d, window);
    } else {
      NeverLeft(day, month, year, window, lastDay);
    }
  }

  lemma {:induction false} PairsToExits(clock: Clock, window: nat, lastDay: Byte)
    requires AlwaysSnapshot(clock, window)
    ensures ExitsOnSnapshots(clock, window, lastDay)
  {
    hide AlwaysSnapshot, ReadsAt, Passes, ShownDuring;
    forall script: Script, turn: nat
      | var passes := Passes(clock, 0, script);
        LeavesFirst(passes, turn, lastDay) && passes[turn + 1].at[5] - passes[turn].at[0] < window
      ensures ShownDuring(clock, Passes(clock, 0, script)[turn], Passes(clock, 0, script)[turn + 1])
    {
      PassesFollow(clock, 0, script, turn);
      PassesFollow(clock, 0, script, turn + 1);
      PairIsShown(clock, window, Passes(clock, 0, script)[turn], Passes(clock, 0, script)[turn + 1]);
    }
  }

  lemma {:induction false} PairIsShown(clock: Clock, window: nat, before: Pass, current: Pass)
    requires AlwaysSnapshot(clock, window)
    requires ReadsAt(clock, before.at, before.raw) && ReadsAt(clock, current.at, current.raw)
    requires before.at[5] <= current.at[0] && SamePass(before.raw, current.raw)
    requires current.at[5] - before.at[0] < window
    ensures ShownDuring(clock, before, current)
  {
    hide ReadsAt, Shows;
  }

  lemma {:induction false} NeverLeft(day: nat -> Byte, month: nat -> Byte, year: nat -> Byte,
                                     window: nat, lastDay: Byte)
    requires forall d: nat :: day(d) != lastDay
    ensures ExitsOnSnapshots(WallClock(day, month, year), window, lastDay)
  {
    hide Passes, Bcd;
    var clock := WallClock(day, month, year);
    assert forall t: nat :: clock(t).day == day(t / 86400);
    hide WallClock;
    forall script: Script, turn: nat | LeavesFirst(Passes(clock, 0, script), turn, lastDay) ensures false {
      WrongDayNeverLeaves(clock, 0, script, lastDay, turn);
    }
  }

  /** Two passes that take 59 minutes and one second: they keep 59 s, 1 min, 1 h of a clock
      that has only been at 00:01:59 and 01:01:00 then. */
  const TORN_BEFORE: Times := [119, 119, 3600, 3600, 3600, 3600]
  const TORN_AT: Times := [3659, 3660, 3660, 3660, 3660, 3660]

  /** The same times of day d. */
  function OnDay(d: nat, at: Times): Times {
    [at[0] + 86400 * d, at[1] + 86400 * d, at[2] + 86400 * d,
     at[3] + 86400 * d, at[4] + 86400 * d, at[5] + 86400 * d]
  }

  lemma {:induction false} TimeOfDay(d: nat, t: nat)
    requires t < 86400
    ensures (t + 86400 * d) % 60 == t % 60
    ensures (t + 86400 * d) / 60 % 60 == t / 60 % 60
    ensures (t + 86400 * d) / 3600 % 24 == t / 3600 % 24
    ensures (t + 86400 * d) / 86400 == d
  {
    var v := t + 86400 * d;
    DivideExactly(v, 60, t / 60 + 1440 * d, t % 60);
    DivideExactly(t / 60 + 1440 * d, 60, t / 60 / 60 + 24 * d, t / 60 % 60);
    DivideExactly(v, 3600, t / 3600 + 24 * d, t % 3600);
    DivideExactly(t / 3600 + 24 * d, 24, t / 3600 / 24 + d, t / 3600 % 24);
    DivideExactly(v, 86400, d, t);
  }

  lemma {:induction false} FaceOnDay(day: nat -> Byte, month: nat -> Byte, year: nat -> Byte, d: nat, t: nat)
    requires t < 86400
    ensures WallClock(day, month, year)(t + 86400 * d) ==
      Face(Bcd(t % 60), Bcd(t / 60 % 60), Bcd(t / 3600 % 24), day(d), month(d), year(d))
  {
    hide Bcd;
    TimeOfDay(d, t);
  }

  lemma {:induction false} TornOnDay(day: nat -> Byte, month: nat -> Byte, year: nat -> Byte, d: nat)
    ensures var clock := WallClock(day, month, year);
      FaceAt(clock, OnDay(d, TORN_BEFORE)) == FaceAt(clock, OnDay(d, TORN_AT))
      == Face(Bcd(59), Bcd(1), Bcd(1), day(d), month(d), year(d))
  {
    hide Bcd, WallClock;
    FaceOnDay(day, month, year, d, 119);
    FaceOnDay(day, month, year, d, 3600);
    FaceOnDay(day, month, year, d, 3659);
    FaceOnDay(day, month, year, d, 3660);
  }

  lemma {:induction false} NeverTornOnDay(day: nat -> Byte, month: nat -> Byte, year: nat -> Byte, d: nat, t: nat)
    requires 119 <= t <= 3660
    ensures !Shows(WallClock(day, month, year), t + 86400 * d,
                   Face(Bcd(59), Bcd(1), Bcd(1), day(d), month(d), year(d)))
  {
    hide Bcd, WallClock;
    FaceOnDay(day, month, year, d, t);
    if Bcd(t % 60) == Bcd(59) && Bcd(t / 60 % 60) == Bcd(1) && Bcd(t / 3600 % 24) == Bcd(1) {
      BcdTells(t % 60, 59);
      BcdTells(t / 60 % 60, 1);
      BcdTells(t / 3600 % 24, 1);
      assert false;
    }
  }

  /** On a day that shows what the variable holds, a run leaves the loop with the torn values. */
  lemma {:induction false} TornExit(day: nat -> Byte, month: nat -> Byte, year: nat -> Byte, d: nat, window: nat)
    requires window > 3541
    ensures !ExitsOnSnapshots(WallClock(day, month, year), window, day(d))
  {
    hide Bcd, WallClock, FaceAt, Shows, Passes;
    var clock := WallClock(day, month, year);
    var before, at := OnDay(d, TORN_BEFORE), OnDay(d, TORN_AT);
    var kept := FaceAt(clock, before);
    TornOnDay(day, month, year, d);
    assert ReadsAt(clock, before, kept) && ReadsAt(clock, at, kept);
    var script := EveryPairIsARun(clock, before, kept, at, kept);
    assert LeavesFirst(Passes(clock, 0, script), 0, day(d));
    forall t: nat | before[0] <= t <= at[5] ensures !Shows(clock, t, kept) {
      NeverTornOnDay(day, month, year, d, t - 86400 * d);
    }
    assert !ShownDuring(clock, Pass(before, kept), Pass(at, kept));
  }
}
