/** Where a calibration comes from: the runs of the protocol traced back to the
    gesture that asked for it. */
module EscHistory {
  import opened Bytes
  import opened SystemState
  import opened EscCalib
  import opened EscGestures
  import opened MotorTask
  import opened EscProtocol

  /** The world after a run from cold. */
  function After(run: seq<Label>): World {
    if |run| == 0 then COLD
    else
      var w, l := After(run[..|run| - 1]), run[|run| - 1];
      if Enabled(w, l) then Next(w, l) else w
  }

  /** Every step of the run was possible when it was taken. */
  ghost predicate Possible(run: seq<Label>) {
    forall i :: 0 <= i < |run| ==> Enabled(After(run[..i]), run[i])
  }

  lemma AfterOn(run: seq<Label>, l: Label)
    requires Enabled(After(run), l)
    ensures After(run + [l]) == Next(After(run), l)
  {
    assert (run + [l])[..|run|] == run;
  }

  lemma {:induction false} ReachesAfter(done: seq<Label>, run: seq<Label>, w: World)
    requires Possible(done) && Reaches(After(done), run, w)
    ensures Possible(done + run) && After(done + run) == w
    decreases |run|
  {
    hide Enabled, Next, After, Possible;
    if |run| == 0 {
      assert done + run == done;
    } else {
      var l := run[0];
      AfterOn(done, l);
      PossibleOn(done, l);
      ReachesAfter(done + [l], run[1..], w);
      assert done + [l] + run[1..] == done + run;
    }
  }

  lemma PossibleOn(run: seq<Label>, l: Label)
    requires Possible(run) && Enabled(After(run), l)
    ensures Possible(run + [l])
  {
    hide After, Enabled;
    var all := run + [l];
    assert forall i :: 0 <= i <= |run| ==> all[..i] == run[..i];
    assert run[..|run|] == run;
  }

  // ----- gestures in a run

  /** Step `i`, if it is an RC frame, shows the entry gesture in STANDBY; and it is
      not a power cut. */
  ghost predicate Holding(run: seq<Label>, i: nat)
    requires i < |run|
  {
    && !run[i].PowerCut? && !run[i].PowerOn?
    && (run[i].RcFrame? ==> !run[i].rc.failsafe && EntrySticks(run[i].rc) && After(run[..i]).sys == Standby)
  }

  /** From the frame at step `j` on, every frame holds the gesture. */
  ghost predicate HeldFrom(run: seq<Label>, j: nat) {
    j < |run| && run[j].RcFrame? && forall i :: j <= i < |run| ==> Holding(run, i)
  }

  /** The frames from step `j` to step `i`, all in one boot, hold the gesture for
      at least 1500 ticks. */
  ghost predicate GestureHeld(run: seq<Label>, j: nat, i: nat) {
    && j <= i < |run| && run[i].RcFrame? && HeldFrom(run[..i + 1], j)
    && After(run[..i]).ticks - After(run[..j]).ticks >= 1500
  }

  ghost predicate GestureMade(run: seq<Label>) {
    exists j: nat, i: nat :: GestureHeld(run, j, i)
  }

  /** The gesture was held in a boot that a power cut has ended. */
  ghost predicate GestureEarlier(run: seq<Label>) {
    exists j: nat, i: nat, p: nat :: GestureHeld(run, j, i) && i < p < |run| && run[p].PowerCut?
  }

  lemma HeldFromOn(run: seq<Label>, l: Label, j: nat)
    requires HeldFrom(run, j) && Holding(run + [l], |run|)
    ensures HeldFrom(run + [l], j)
  {
    hide After;
    var all := run + [l];
    forall i | j <= i < |all| ensures Holding(all, i) {
      if i < |run| {
        assert Holding(run, i);
        assert all[..i] == run[..i];
      }
    }
  }

  lemma GestureHeldOn(run: seq<Label>, l: Label, j: nat, i: nat)
    requires GestureHeld(run, j, i)
    ensures GestureHeld(run + [l], j, i)
  {
    hide After, HeldFrom;
    var all := run + [l];
    assert all[..i + 1] == run[..i + 1] && all[..i] == run[..i] && all[..j] == run[..j];
  }

  lemma GestureMadeOn(run: seq<Label>, l: Label)
    ensures GestureMade(run) ==> GestureMade(run + [l])
    ensures GestureEarlier(run) ==> GestureEarlier(run + [l])
    ensures GestureMade(run) && l.PowerCut? ==> GestureEarlier(run + [l])
  {
    hide GestureHeld;
    var all := run + [l];
    if GestureMade(run) {
      var j: nat, i: nat :| GestureHeld(run, j, i);
      GestureHeldOn(run, l, j, i);
      HeldInside(run, j, i);
      if l.PowerCut? {
        assert GestureHeld(all, j, i) && i < |run| < |all| && all[|run|].PowerCut?;
      }
    }
    if GestureEarlier(run) {
      var j: nat, i: nat, p: nat :| GestureHeld(run, j, i) && i < p < |run| && run[p].PowerCut?;
      GestureHeldOn(run, l, j, i);
      assert all[p].PowerCut?;
    }
  }

  lemma HeldInside(run: seq<Label>, j: nat, i: nat)
    requires GestureHeld(run, j, i)
    ensures i < |run|
  {}

  // ----- what every step keeps

  /** Step `j` began what the hold flag of the world `w` stands for. */
  ghost predicate BeganAt(run: seq<Label>, w: World, j: nat) {
    && HeldFrom(run, j) && w.statics.gestureMs == Clock(After(run[..j]).ticks) && After(run[..j]).ticks <= w.ticks
  }

  /** A set hold flag is witnessed by frames of this boot. */
  ghost predicate FlagHonest(run: seq<Label>, w: World) {
    && FlagAlone(w.statics) && (w.statics.holdingEnter ==> TasksRun(w))
    && (w.statics.holdingEnter ==> exists j: nat :: BeganAt(run, w, j))
  }

  ghost predicate FlagAlone(s: Statics) {
    && (s.holdingEnter ==> s.phase == Off && !s.awaitingCommit)
  }

  /** What comes of a request goes back to a gesture. */
  ghost predicate Accounted(run: seq<Label>, w: World) {
    && (w.queue > 0 || w.marker ==> GestureMade(run))
    && (w.have || (w.marker && !TasksRun(w)) ==> GestureEarlier(run))
  }

  lemma FrameFlag(s: Statics, sys: SysState, rc: Frame, t: u32, fs: Storage)
    requires FlagAlone(s)
    ensures FlagAlone(RcStep(s, sys, rc, t, fs).s)
    ensures var o := RcStep(s, sys, rc, t, fs);
      o.s.holdingEnter ==>
        !rc.failsafe && EntrySticks(rc) && sys == Standby &&
        o.s.gestureMs == (if s.holdingEnter then s.gestureMs else t)
    ensures RcStep(s, sys, rc, t, fs).enqueued ==>
      !rc.failsafe && EntrySticks(rc) && sys == Standby && s.holdingEnter && Elapsed(t, s.gestureMs) >= 1500
  {
    hide GestureClose, Elapsed;
  }

  /** The flag through an RC frame. */
  lemma FrameKeepsFlag(run: seq<Label>, w: World, l: Label)
    requires FlagHonest(run, w) && w == After(run) && l.RcFrame? && Enabled(w, l)
    ensures FlagHonest(run + [l], Next(w, l))
  {
    var all, o := run + [l], RcStep(w.statics, w.sys, l.rc, Clock(w.ticks), StorageView(w, l.accepts));
    FrameFlag(w.statics, w.sys, l.rc, Clock(w.ticks), StorageView(w, l.accepts));
    assert Next(w, l) == AfterRc(w, l.rc, l.accepts);
    hide RcStep, EntrySticks, After, StorageView, Clock;
    assert all[..|run|] == run && all[|run|] == l;
    if o.s.holdingEnter {
      assert Holding(all, |run|);
      if w.statics.holdingEnter {
        var j: nat :| BeganAt(run, w, j);
        HeldFromOn(run, l, j);
        assert all[..j] == run[..j];
        assert BeganAt(all, Next(w, l), j);
      } else {
        assert HeldFrom(all, |run|);
        assert BeganAt(all, Next(w, l), |run|);
      }
    }
  }

  /** The flag through any other step. */
  lemma OtherKeepsFlag(run: seq<Label>, w: World, l: Label)
    requires FlagHonest(run, w) && w == After(run) && !l.RcFrame? && Enabled(w, l)
    ensures FlagHonest(run + [l], Next(w, l))
  {
    var all, v := run + [l], Next(w, l);
    OtherFlag(w, l);
    hide Next, Enabled, After, Clock, FlagAlone;
    if v.statics.holdingEnter {
      assert all[|run|] == l;
      assert Holding(all, |run|);
      var j: nat :| BeganAt(run, w, j);
      HeldFromOn(run, l, j);
      assert all[..j] == run[..j];
      assert BeganAt(all, v, j);
    }
  }

  lemma OtherFlag(w: World, l: Label)
    requires !l.RcFrame? && Enabled(w, l) && FlagAlone(w.statics) && (w.statics.holdingEnter ==> TasksRun(w))
    ensures var v := Next(w, l);
      FlagAlone(v.statics) &&
      (v.statics.holdingEnter ==>
         w.statics.holdingEnter && TasksRun(v) && !l.PowerCut? && !l.PowerOn? &&
         v.statics.gestureMs == w.statics.gestureMs && v.ticks >= w.ticks)
  {
    hide Pass, Accepts, GestureMade, Clock;
  }

  /** A frame that queues a request ends a held gesture. */
  lemma FrameRequests(run: seq<Label>, w: World, l: Label)
    requires FlagHonest(run, w) && w == After(run) && l.RcFrame? && Enabled(w, l)
    requires RcStep(w.statics, w.sys, l.rc, Clock(w.ticks), StorageView(w, l.accepts)).enqueued
    ensures GestureMade(run + [l])
  {
    var all, n := run + [l], |run|;
    FrameFlag(w.statics, w.sys, l.rc, Clock(w.ticks), StorageView(w, l.accepts));
    hide RcStep, EntrySticks, StorageView, Clock, Elapsed;
    var j: nat :| BeganAt(run, w, j);
    ClockDifference(After(run[..j]).ticks, w.ticks);
    hide After;
    assert all[..n] == run && all[n] == l && all[..n + 1] == all && all[..j] == run[..j];
    assert Holding(all, n);
    HeldFromOn(run, l, j);
    assert GestureHeld(all, j, n);
  }

  /** Where requests, markers and readings come from, whatever the step. */
  lemma StepBooks(w: World, l: Label)
    requires Enabled(w, l)
    ensures var v := Next(w, l);
      (v.queue > 0 || v.marker ==>
         w.queue > 0 || w.marker ||
         (l.RcFrame? && RcStep(w.statics, w.sys, l.rc, Clock(w.ticks), StorageView(w, l.accepts)).enqueued))
    ensures var v := Next(w, l);
      v.have || (v.marker && !TasksRun(v)) ==> w.have || (w.marker && (l.PowerCut? || !TasksRun(w)))
  {
    hide RcStep, Pass, Requested, Accepts, Clock;
  }

  /** The books through any step. */
  lemma StepAccounts(run: seq<Label>, w: World, l: Label)
    requires FlagHonest(run, w) && Accounted(run, w) && w == After(run) && Enabled(w, l)
    ensures Accounted(run + [l], Next(w, l))
  {
    GestureMadeOn(run, l);
    StepBooks(w, l);
    if l.RcFrame? && RcStep(w.statics, w.sys, l.rc, Clock(w.ticks), StorageView(w, l.accepts)).enqueued {
      FrameRequests(run, w, l);
    }
    hide Next, Enabled, RcStep, StorageView, TasksRun, GestureMade, GestureEarlier, FlagHonest, After, Clock;
  }

  lemma PossibleFront(run: seq<Label>)
    requires Possible(run) && |run| > 0
    ensures var n := |run| - 1; Possible(run[..n]) && Enabled(After(run[..n]), run[n])
  {
    hide After, Enabled;
    var n := |run| - 1;
    assert forall i :: 0 <= i < n ==> run[..n][..i] == run[..i] && run[..n][i] == run[i];
  }

  lemma ColdAccounts()
    ensures FlagHonest([], After([])) && Accounted([], After([]))
  {}

  lemma StepKeeps(run: seq<Label>, l: Label)
    requires FlagHonest(run, After(run)) && Accounted(run, After(run)) && Enabled(After(run), l)
    ensures FlagHonest(run + [l], After(run + [l])) && Accounted(run + [l], After(run + [l]))
  {
    hide After, Enabled, Next, FlagHonest, Accounted;
    AfterOn(run, l);
    StepAccounts(run, After(run), l);
    if l.RcFrame? {
      FrameKeepsFlag(run, After(run), l);
    } else {
      OtherKeepsFlag(run, After(run), l);
    }
  }

  lemma {:induction false} RunAccounts(run: seq<Label>)
    requires Possible(run)
    ensures FlagHonest(run, After(run)) && Accounted(run, After(run))
  {
    hide After, Enabled, Possible, FlagHonest, Accounted;
    if |run| == 0 {
      ColdAccounts();
    } else {
      var n := |run| - 1;
      PossibleFront(run);
      RunAccounts(run[..n]);
      StepKeeps(run[..n], run[n]);
      assert run[..n] + [run[n]] == run;
    }
  }

  /** Over every interleaving and every power cut, a motor iteration that drives
      calibration output is preceded by a boot, since ended by a power cut, in
      which the frames held the entry gesture in STANDBY for 1500 ticks. */
  lemma MaximumNeedsHeldGesture(run: seq<Label>, w: World, item: Option<Outputs>)
    requires Reaches(COLD, run, w) && Enabled(w, MotorPass(item))
    requires w.sys == SysState.EscCalib && Next(w, MotorPass(item)).prev != ZERO
    ensures GestureEarlier(run)
  {
    MaximumOnlyAfterTaking(run, w, item);
    assert [] + run == run;
    ReachesAfter([], run, w);
    RunAccounts(run);
  }
}
