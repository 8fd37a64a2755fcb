/** The motor output task: one loop iteration, and the value it carries over
    when the mixer queue is empty. */
module MotorTask {
  import opened SystemState
  import EscCalib

  datatype Option<T> = None | Some(value: T)

  datatype Outputs = Outputs(m1: real, m2: real, m3: real, m4: real)

  function All(level: real): Outputs {
    Outputs(level, level, level, level)
  }

  const ZERO := All(0.0)

  predicate MaySpin(sys: SysState) {
    sys == Armed || sys == InAir
  }

  /** What every motor gets during calibration. */
  function CalibLevel(phase: EscCalib.Phase): real {
    if phase == EscCalib.High then 1.0 else 0.0
  }

  /** One iteration: `item` is what the mixer queue held, if anything. */
  function Pass(prev: Outputs, item: Option<Outputs>, sys: SysState, phase: EscCalib.Phase): Outputs {
    if sys == SysState.EscCalib then All(CalibLevel(phase))
    else if !MaySpin(sys) then ZERO
    else if item.Some? then item.value
    else prev
  }

  /** The task's own storage: the mixer queue and the two output records. */
  class Motors {
    var ready: bool
    var queue: seq<Outputs>
    var outputs: Outputs
    var prev: Outputs
    var commanded: Outputs

    constructor ()
      ensures !ready && queue == [] && outputs == prev == commanded == ZERO
    {
      ready, queue, outputs, prev, commanded := false, [], ZERO, ZERO, ZERO;
    }

    method Iterate(sys: SysState, phase: EscCalib.Phase)
      modifies `queue, `outputs, `prev, `commanded
      ensures !ready ==> queue == old(queue) && prev == old(prev) && commanded == old(commanded)
      ensures ready ==> queue == if old(queue) == [] then [] else old(queue)[1..]
      ensures ready && sys == SysState.EscCalib && phase == EscCalib.High ==> commanded == Outputs(1.0, 1.0, 1.0, 1.0)
      ensures ready && sys == SysState.EscCalib && phase != EscCalib.High ==> commanded == Outputs(0.0, 0.0, 0.0, 0.0)
      ensures ready && sys !in {SysState.EscCalib, Armed, InAir} ==> commanded == Outputs(0.0, 0.0, 0.0, 0.0)
      ensures ready && sys in {Armed, InAir} ==> commanded == if old(queue) == [] then old(prev) else old(queue)[0]
      ensures ready ==>
        commanded == prev == Pass(old(prev), if old(queue) == [] then None else Some(old(queue)[0]), sys, phase)
    {
      if !ready {
        return;
      }
      if queue == [] {
        outputs := prev;
      } else {
        outputs := queue[0];
        queue := queue[1..];
      }
      if sys == SysState.EscCalib {
        var lvl := CalibLevel(phase);
        outputs := Outputs(lvl, lvl, lvl, lvl);
      } else if sys != Armed && sys != InAir {
        outputs := outputs.(m1 := 0.0, m2 := 0.0, m3 := 0.0, m4 := 0.0);
      }
      prev := outputs;
      commanded := outputs;
    }
  }

  // ----- runs of iterations

  datatype Sample = Sample(item: Option<Outputs>, sys: SysState, phase: EscCalib.Phase)

  /** The output after a run of iterations; also what the next one may repeat. */
  function Driven(prev: Outputs, run: seq<Sample>): Outputs
    decreases |run|
  {
    if |run| == 0 then prev
    else var s := run[|run| - 1]; Pass(Driven(prev, run[..|run| - 1]), s.item, s.sys, s.phase)
  }

  /** An iteration that only repeats: armed, with nothing queued. */
  predicate Repeats(s: Sample) {
    MaySpin(s.sys) && s.item.None?
  }

  /** What an iteration that does not repeat puts out. */
  function Fresh(s: Sample): Outputs
    requires !Repeats(s)
  {
    if s.sys == SysState.EscCalib then All(CalibLevel(s.phase)) else if MaySpin(s.sys) then s.item.value else ZERO
  }

  /** Every output is exactly that of the last iteration that did not merely
      repeat, with nothing but armed empty-queue iterations since; so once an
      iteration samples a state in which the motors may not spin, zero stands
      until the mixer or the calibration says otherwise. */
  lemma {:induction false} OutputHasSource(prev: Outputs, run: seq<Sample>)
    ensures
      || (Driven(prev, run) == prev && forall i :: 0 <= i < |run| ==> Repeats(run[i]))
      || exists k :: 0 <= k < |run| && !Repeats(run[k]) && Driven(prev, run) == Fresh(run[k]) &&
                     forall i :: k < i < |run| ==> Repeats(run[i])
  {
    if |run| > 0 {
      var n := |run| - 1;
      var front := run[..n];
      OutputHasSource(prev, front);
      if Repeats(run[n]) {
        if k :| 0 <= k < n && !Repeats(front[k]) && Driven(prev, front) == Fresh(front[k]) &&
                forall i :: k < i < n ==> Repeats(front[i])
        {
          assert front[k] == run[k];
          assert forall i :: k < i < n ==> Repeats(run[i]) by { assert forall i :: k < i < n ==> front[i] == run[i]; }
        } else {
          assert forall i :: 0 <= i < n ==> Repeats(run[i]) by { assert forall i :: 0 <= i < n ==> front[i] == run[i]; }
        }
      } else {
        assert Driven(prev, run) == Fresh(run[n]);
      }
    }
  }

  /** Consequence: after an iteration that may not spin, later iterations that
      find the queue empty and calibration not at its maximum put out zero. */
  lemma ZeroStands(prev: Outputs, run: seq<Sample>, k: nat)
    requires k < |run| && run[k].sys !in {Armed, InAir, SysState.EscCalib}
    requires forall i :: k < i < |run| ==>
      run[i].item.None? && (run[i].sys == SysState.EscCalib ==> run[i].phase != EscCalib.High)
    ensures Driven(prev, run) == Outputs(0.0, 0.0, 0.0, 0.0)
  {}
}
