/** The flight state and its transition table. */
module SystemState {

  datatype SysState =
    | Uninitialized | Init | Standby | Prearm | Armed | InAir | Failsafe | Terminated | Calibrating | EscCalib

  /** The normal transitions; self-loops and FAILSAFE are handled outside. */
  predicate Listed(from: SysState, to: SysState) {
    match from
    case Uninitialized => to == Init
    case Init => to == Standby || to == EscCalib
    case Standby => to == Prearm || to == Armed || to == Calibrating || to == EscCalib
    case EscCalib => to == Standby
    case Failsafe => to == Calibrating || to == Standby
    case Prearm => to == Armed || to == Standby
    case Armed => to == InAir || to == Standby
    case InAir => to == Armed || to == Standby
    case Calibrating => to == Standby
    case Terminated => false
  }

  /** The table as the firmware lists it. */
  const TABLE: seq<(SysState, SysState)> := [
    (Uninitialized, Init), (Init, Standby), (Standby, Prearm), (Standby, Armed), (Standby, Calibrating),
    (Init, EscCalib), (Standby, EscCalib), (EscCalib, Standby), (Failsafe, Calibrating), (Prearm, Armed),
    (Prearm, Standby), (Armed, InAir), (Armed, Standby), (InAir, Armed), (InAir, Standby), (Calibrating, Standby),
    (Failsafe, Standby)]

  method FindRow(table: seq<(SysState, SysState)>, from: SysState, to: SysState) returns (found: bool)
    ensures found <==> (from, to) in table
  {
    for i := 0 to |table|
      invariant (from, to) !in table[..i]
    {
      if table[i].0 == from && table[i].1 == to {
        assert table[i] == (from, to);
        return true;
      }
    }
    assert table[..|table|] == table;
    return false;
  }

  /** The predicate is that table. */
  lemma TableExactly(from: SysState, to: SysState)
    ensures Listed(from, to) <==> (from, to) in TABLE
  {
    assert forall i :: 0 <= i < |TABLE| ==> Listed(TABLE[i].0, TABLE[i].1);
    if Listed(from, to) {
      TableHas(from, to);
    }
  }

  lemma TableHas(from: SysState, to: SysState)
    requires Listed(from, to)
    ensures (from, to) in TABLE
  {}

  predicate Accepts(from: SysState, to: SysState) {
    from == to || to == Failsafe || Listed(from, to)
  }

  /** A request either moves the state to its target or leaves it alone. */
  function Requested(cur: SysState, target: SysState): SysState {
    if Accepts(cur, target) then target else cur
  }

  function AfterRequests(cur: SysState, targets: seq<SysState>): SysState
    decreases |targets|
  {
    if |targets| == 0 then cur
    else Requested(AfterRequests(cur, targets[..|targets| - 1]), targets[|targets| - 1])
  }

  /** Calibration is entered from INIT or STANDBY, and the motors are armed from
      STANDBY, PREARM or the air, never out of calibration. */
  lemma EntriesGuarded(from: SysState)
    ensures Accepts(from, EscCalib) <==> from in {EscCalib, Init, Standby}
    ensures Accepts(from, Armed) <==> from in {Armed, Standby, Prearm, InAir}
    ensures Accepts(from, InAir) <==> from in {InAir, Armed}
    ensures Accepts(from, Failsafe)
  {}

  /** Whatever is requested, calibration gives way only to STANDBY or FAILSAFE:
      the aircraft cannot be armed straight out of it. */
  lemma {:induction false} LeavingCalibration(targets: seq<SysState>)
    ensures AfterRequests(EscCalib, targets) == EscCalib ||
            exists k :: 0 <= k < |targets| && AfterRequests(EscCalib, targets[..k]) == EscCalib &&
                        AfterRequests(EscCalib, targets[..k + 1]) in {Standby, Failsafe}
  {
    if |targets| > 0 {
      var n := |targets| - 1;
      var front := targets[..n];
      LeavingCalibration(front);
      assert targets[..n + 1] == targets;
      if AfterRequests(EscCalib, front) != EscCalib {
        var k :| 0 <= k < |front| && AfterRequests(EscCalib, front[..k]) == EscCalib &&
                 AfterRequests(EscCalib, front[..k + 1]) in {Standby, Failsafe};
        assert front[..k] == targets[..k] && front[..k + 1] == targets[..k + 1];
      }
    }
  }
}
