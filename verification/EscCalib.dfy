/** ESC endpoint calibration: the file statics and the per-frame service. */
module EscCalib {
  import opened Bytes
  import opened SystemState

  const STICK_LO := 1150
  const STICK_HI := 1850
  const GESTURE_MS := 1500
  const SETTLE_MS := 2000
  const TIMEOUT_MS := 60000
  const COMMIT_TIMEOUT_MS := 3000

  /** Roll, pitch, throttle and yaw of the frame the flight controller acted on. */
  datatype Frame = Frame(roll: nat, pitch: nat, throttle: nat, yaw: nat, failsafe: bool)

  predicate GestureEnter(rc: Frame) {
    rc.throttle < STICK_LO && rc.pitch < STICK_LO && rc.yaw > STICK_HI && rc.roll < STICK_LO
  }

  predicate GestureClose(rc: Frame) {
    rc.throttle < STICK_LO && rc.pitch < STICK_LO && rc.yaw < STICK_LO && rc.roll > STICK_HI
  }

  datatype Phase = Off | High | Settle

  /** What the storage owner shows this module. */
  datatype Storage = Storage(accepts: bool, failed: bool, committed: u32)

  datatype Statics = Statics(
    phase: Phase, requestWritten: bool, gestureMs: u32, phaseMs: u32, holdingEnter: bool, holdingClose: bool,
    awaitingCommit: bool, commitMark: u32, commitWaitMs: u32)

  const POWER_ON := Statics(Off, false, 0, 0, false, false, false, 0, 0)

  /** Unsigned 32-bit subtraction. */
  function Elapsed(t: u32, since: u32): u32 {
    (t - since) % TWO32
  }

  function Clock(ticks: nat): u32 {
    ticks % TWO32
  }

  // ----- the specification of one frame

  datatype Outcome = Outcome(s: Statics, sys: SysState, enqueued: bool)

  function Released(s: Statics): Statics {
    s.(phase := Off, holdingEnter := false, holdingClose := false)
  }

  function Finished(s: Statics, sys: SysState): Outcome {
    Outcome(Released(s), if sys == SysState.EscCalib then Requested(sys, Standby) else sys, false)
  }

  function CommitStep(s: Statics, t: u32, fs: Storage): Statics {
    if fs.failed then s.(awaitingCommit := false)
    else if fs.committed != s.commitMark then s.(awaitingCommit := false, requestWritten := true)
    else if Elapsed(t, s.commitWaitMs) >= COMMIT_TIMEOUT_MS then s.(awaitingCommit := false)
    else s
  }

  function IdleStep(s: Statics, sys: SysState, rc: Frame, t: u32, fs: Storage): Outcome {
    if sys != Standby then Outcome(s.(holdingEnter := false), sys, false)
    else if !GestureEnter(rc) then Outcome(s.(holdingEnter := false), sys, false)
    else if !s.holdingEnter then Outcome(s.(holdingEnter := true, gestureMs := t), sys, false)
    else if Elapsed(t, s.gestureMs) < GESTURE_MS then Outcome(s, sys, false)
    else if !fs.accepts then Outcome(s.(holdingEnter := false), sys, false)
    else
      Outcome(s.(holdingEnter := false, awaitingCommit := true, commitMark := fs.committed, commitWaitMs := t),
              sys, true)
  }

  function ActiveStep(s: Statics, sys: SysState, rc: Frame, t: u32): Outcome {
    if sys != SysState.EscCalib then Outcome(Released(s), sys, false)
    else if Elapsed(t, s.phaseMs) >= TIMEOUT_MS then Finished(s, sys)
    else if s.phase == High then
      if !GestureClose(rc) then Outcome(s.(holdingClose := false), sys, false)
      else if !s.holdingClose then Outcome(s.(holdingClose := true, gestureMs := t), sys, false)
      else if Elapsed(t, s.gestureMs) < GESTURE_MS then Outcome(s, sys, false)
      else Outcome(s.(phase := Settle, phaseMs := t, holdingClose := false), sys, false)
    else if Elapsed(t, s.phaseMs) >= SETTLE_MS then Finished(s, sys)
    else Outcome(s, sys, false)
  }

  /** One RC frame, serviced at tick `t`. */
  function RcStep(s: Statics, sys: SysState, rc: Frame, t: u32, fs: Storage): Outcome {
    if rc.failsafe then
      if s.phase != Off then Finished(s, sys)
      else Outcome(s.(holdingEnter := false, holdingClose := false), sys, false)
    else if s.awaitingCommit then Outcome(CommitStep(s, t, fs), sys, false)
    else if s.phase == Off then IdleStep(s, sys, rc, t, fs)
    else ActiveStep(s, sys, rc, t)
  }

  // ----- the module as it runs: statics updated in place

  class Service {
    var sys: SysState
    var phase: Phase
    var requestWritten: bool
    var gestureMs: u32
    var phaseMs: u32
    var holdingEnter: bool
    var holdingClose: bool
    var awaitingCommit: bool
    var commitMark: u32
    var commitWaitMs: u32

    ghost function Value(): Statics
      reads this
    {
      Statics(phase, requestWritten, gestureMs, phaseMs, holdingEnter, holdingClose,
              awaitingCommit, commitMark, commitWaitMs)
    }

    constructor ()
      ensures Value() == POWER_ON && sys == Init
    {
      sys := Init;
      phase, requestWritten, gestureMs, phaseMs := Off, false, 0, 0;
      holdingEnter, holdingClose, awaitingCommit, commitMark, commitWaitMs := false, false, false, 0, 0;
    }

    /** The gesture hold timer for the entry gesture. */
    method HeldEnter(now: bool, t: u32) returns (held: bool)
      modifies `holdingEnter, `gestureMs
      ensures held == (now && old(holdingEnter) && Elapsed(t, old(gestureMs)) >= GESTURE_MS)
      ensures holdingEnter == now
      ensures gestureMs == if now && !old(holdingEnter) then t else old(gestureMs)
    {
      if !now {
        holdingEnter := false;
        return false;
      }
      if !holdingEnter {
        holdingEnter := true;
        gestureMs := t;
        return false;
      }
      return Elapsed(t, gestureMs) >= GESTURE_MS;
    }

    /** The same timer for the closing gesture; both share one start stamp. */
    method HeldClose(now: bool, t: u32) returns (held: bool)
      modifies `holdingClose, `gestureMs
      ensures held == (now && old(holdingClose) && Elapsed(t, old(gestureMs)) >= GESTURE_MS)
      ensures holdingClose == now
      ensures gestureMs == if now && !old(holdingClose) then t else old(gestureMs)
    {
      if !now {
        holdingClose := false;
        return false;
      }
      if !holdingClose {
        holdingClose := true;
        gestureMs := t;
        return false;
      }
      return Elapsed(t, gestureMs) >= GESTURE_MS;
    }

    method SetState(target: SysState) returns (ok: bool)
      modifies `sys
      ensures sys == Requested(old(sys), target) && ok == Accepts(old(sys), target)
    {
      TableExactly(sys, target);
      if sys == target {
        return true;
      }
      if target == Failsafe {
        sys := target;
        return true;
      }
      hide Listed;
      ok := FindRow(TABLE, sys, target);
      if ok {
        sys := target;
      }
    }

    method Finish()
      modifies `phase, `holdingEnter, `holdingClose, `sys
      ensures Outcome(Value(), sys, false) == Finished(old(Value()), old(sys))
    {
      phase := Off;
      holdingEnter := false;
      holdingClose := false;
      if sys == SysState.EscCalib {
        var _ := SetState(Standby);
      }
    }

    method RcFrame(rc: Frame, t: u32, fs: Storage) returns (enqueued: bool)
      modifies this
      ensures Outcome(Value(), sys, enqueued) == RcStep(old(Value()), old(sys), rc, t, fs)
    {
      enqueued := false;
      var st := sys;
      if rc.failsafe {
        if phase != Off {
          Finish();
        }
        holdingEnter := false;
        holdingClose := false;
        return;
      }
      if awaitingCommit {
        if fs.failed {
          awaitingCommit := false;
        } else if fs.committed != commitMark {
          awaitingCommit := false;
          requestWritten := true;
        } else if Elapsed(t, commitWaitMs) >= COMMIT_TIMEOUT_MS {
          awaitingCommit := false;
        }
        return;
      }
      if phase == Off {
        if st != Standby {
          holdingEnter := false;
          return;
        }
        var held := HeldEnter(GestureEnter(rc), t);
        if !held {
          return;
        }
        holdingEnter := false;
        if !fs.accepts {
          return;
        }
        awaitingCommit := true;
        commitMark := fs.committed;
        commitWaitMs := t;
        enqueued := true;
        return;
      }
      if st != SysState.EscCalib {
        phase := Off;
        holdingEnter := false;
        holdingClose := false;
        return;
      }
      if Elapsed(t, phaseMs) >= TIMEOUT_MS {
        Finish();
        return;
      }
      if phase == High {
        var held := HeldClose(GestureClose(rc), t);
        if held {
          phase := Settle;
          phaseMs := t;
          holdingClose := false;
        }
        return;
      }
      if Elapsed(t, phaseMs) >= SETTLE_MS {
        Finish();
      }
    }
  }
}
