/** The two-boot calibration protocol: boot, RC, motor and storage steps
    interleaved in any order, with the power cut at any point. */
module EscProtocol {
  import opened Bytes
  import opened SystemState
  import opened EscCalib
  import opened MotorTask

  datatype BootStage = Down | Reading | Clearing | Entering | Finishing | Up

  /** How this boot's clearing of the marker went. */
  datatype Clear = NotTried | Durable | Lost

  datatype World = World(
    // survives a power cut
    marker: bool,
    // lost in a power cut
    boot: BootStage, have: bool, clear: Clear, sys: SysState, statics: Statics, ticks: nat,
    queue: nat, committed: nat, failed: bool, prev: Outputs,
    // history: marker writes that reached the card, those of them that found it
    // set already, clearings that did not reach it, boots cut off between
    // clearing and entering, and calibrations
    writes: nat, rewrites: nat, lostClears: nat, cutShort: nat, calibrations: nat)

  datatype Label =
    | PowerCut
    | PowerOn
    | BootRead
    | BootClear(durable: bool)
    | BootEnter
    | BootFinish(passed: bool)
    | RcFrame(rc: Frame, accepts: bool)
    | OtherTask(target: SysState)
    | StorageTry(durable: bool, reported: bool, gaveUp: bool)
    | MotorPass(item: Option<Outputs>)
    | Tick(n: nat)

  const COLD := World(false, Down, false, NotTried, Uninitialized, POWER_ON, 0, 0, 0, false, ZERO, 0, 0, 0, 0, 0)

  predicate TasksRun(w: World) {
    w.boot == Finishing || w.boot == Up
  }

  predicate Enabled(w: World, l: Label) {
    match l
    case PowerCut => true
    case PowerOn => w.boot == Down
    case BootRead => w.boot == Reading
    case BootClear(_) => w.boot == Clearing
    case BootEnter => w.boot == Entering
    case BootFinish(_) => w.boot == Finishing
    case RcFrame(_, _) => TasksRun(w)
    // every other caller of system_state_set asks for some other state
    case OtherTask(target) => TasksRun(w) && target != SysState.EscCalib
    case StorageTry(_, _, _) => TasksRun(w) && w.queue > 0
    case MotorPass(_) => TasksRun(w)
    case Tick(_) => w.boot != Down
  }

  function One(b: bool): nat {
    if b then 1 else 0
  }

  function StorageView(w: World, accepts: bool): Storage {
    Storage(accepts, w.failed, w.committed % TWO32)
  }

  function Rebooted(w: World): World {
    w.(boot := Reading, have := false, clear := NotTried, sys := Init, statics := POWER_ON, ticks := 0,
       queue := 0, committed := 0, failed := false, prev := ZERO)
  }

  function AfterRc(w: World, rc: Frame, accepts: bool): World {
    var o := RcStep(w.statics, w.sys, rc, Clock(w.ticks), StorageView(w, accepts));
    w.(statics := o.s, sys := o.sys, queue := if o.enqueued then w.queue + 1 else w.queue)
  }

  /** One attempt by the storage owner.  A write may reach the card whether or
      not it is reported; an unreported one is retried or given up. */
  function AfterStorage(w: World, durable: bool, reported: bool, gaveUp: bool): World
    requires w.queue > 0
  {
    var w1 := if durable then w.(marker := true, writes := w.writes + 1, rewrites := w.rewrites + One(w.marker)) else w;
    if reported then w1.(committed := w1.committed + 4, queue := w1.queue - 1)
    else if gaveUp then w1.(failed := true, queue := w1.queue - 1)
    else w1
  }

  function Next(w: World, l: Label): World
    requires Enabled(w, l)
  {
    match l
    case PowerCut =>
      Rebooted(w).(boot := Down, sys := Uninitialized, cutShort := w.cutShort + One(w.boot == Entering))
    case PowerOn => Rebooted(w)
    case BootRead => w.(have := w.marker, boot := if w.marker then Clearing else Finishing)
    case BootClear(durable) =>
      if durable then w.(marker := false, clear := Durable, boot := Entering)
      else w.(clear := Lost, lostClears := w.lostClears + 1, boot := Entering)
    case BootEnter =>
      if Accepts(w.sys, SysState.EscCalib)
      then w.(boot := Finishing, sys := SysState.EscCalib, calibrations := w.calibrations + 1,
              statics := w.statics.(phase := High, phaseMs := Clock(w.ticks)))
      else w.(boot := Finishing)
    case BootFinish(passed) =>
      var sys := if !passed then Requested(w.sys, Failsafe)
                 else if w.sys != SysState.EscCalib then Requested(w.sys, Standby) else w.sys;
      w.(boot := Up, sys := sys)
    case RcFrame(rc, accepts) => AfterRc(w, rc, accepts)
    case OtherTask(target) => w.(sys := Requested(w.sys, target))
    case StorageTry(durable, reported, gaveUp) => AfterStorage(w, durable, reported, gaveUp)
    case MotorPass(item) => w.(prev := Pass(w.prev, item, w.sys, w.statics.phase))
    case Tick(n) => w.(ticks := w.ticks + n)
  }

  // ----- runs

  ghost predicate Reaches(w: World, run: seq<Label>, w': World)
    decreases |run|
  {
    if |run| == 0 then w' == w
    else Enabled(w, run[0]) && Reaches(Next(w, run[0]), run[1..], w')
  }

  ghost predicate Balanced(w: World) {
    w.writes + w.lostClears ==
    w.calibrations + w.rewrites + w.cutShort + One(w.marker) + One(w.boot == Entering)
  }

  /** What every step keeps.  A calibration phase exists only in a boot that
      found the marker and tried to clear it before entering; and the books
      balance: what marker writes and lost clearings bring in is a marker still
      set, a write on top of another, a boot about to enter or cut short, or a
      calibration. */
  ghost predicate Inv(w: World) {
    && (w.statics.phase != Off ==> TasksRun(w) && w.have && w.clear != NotTried)
    && (w.boot == Clearing ==> w.have && w.marker)
    && (w.boot == Entering ==> w.have && w.clear != NotTried)
    && (w.clear == Lost ==> w.lostClears > 0)
    && (w.boot in {Reading, Clearing, Entering} ==> w.sys == Init)
    && Balanced(w)
  }

  lemma FramesNeverStart(s: Statics, sys: SysState, rc: Frame, t: u32, fs: Storage)
    ensures RcStep(s, sys, rc, t, fs).s.phase != Off ==> s.phase != Off
  {}

  lemma StepKeepsInv(w: World, l: Label)
    requires Inv(w) && Enabled(w, l)
    ensures Inv(Next(w, l))
  {
    hide RcStep, Pass, Requested, Accepts, StorageView, Clock;
    match l
    case RcFrame(rc, accepts) =>
      FramesNeverStart(w.statics, w.sys, rc, Clock(w.ticks), StorageView(w, accepts));
    case BootEnter => EnterKeepsInv(w);
    case _ =>
  }

  /** At boot the state is INIT, which lets calibration in. */
  lemma EnterKeepsInv(w: World)
    requires Inv(w) && w.boot == Entering
    ensures Inv(Next(w, BootEnter))
  {}

  lemma {:induction false} RunKeepsInv(w: World, run: seq<Label>, w': World)
    requires Inv(w) && Reaches(w, run, w')
    ensures Inv(w')
    decreases |run|
  {
    if |run| > 0 {
      StepKeepsInv(w, run[0]);
      RunKeepsInv(Next(w, run[0]), run[1..], w');
    }
  }

  /** Over every interleaving and every power cut, a motor iteration that sees
      calibration at its maximum runs in a boot that read a durable marker and
      cleared it first. */
  lemma MaximumOnlyAfterTaking(run: seq<Label>, w: World, item: Option<Outputs>)
    requires Reaches(COLD, run, w) && Enabled(w, MotorPass(item))
    requires w.sys == SysState.EscCalib && Next(w, MotorPass(item)).prev != ZERO
    ensures w.have && w.statics.phase == High
    ensures w.clear == Durable || (w.clear == Lost && w.lostClears > 0)
  {
    RunKeepsInv(COLD, run, w);
  }

  /** The exact balance.  So there are no more calibrations than durable requests
      exactly when the clearings that did not reach the card are made up for by
      requests that led to none: still set, written on top of another, or taken
      by a boot that has not entered calibration. */
  lemma OneAttemptPerRequest(run: seq<Label>, w: World)
    requires Reaches(COLD, run, w)
    ensures Balanced(w)
    ensures w.calibrations <= w.writes <==>
      w.lostClears <= w.rewrites + w.cutShort + One(w.marker) + One(w.boot == Entering)
  {
    RunKeepsInv(COLD, run, w);
  }

  // ----- concrete runs

  lemma {:induction false} Extend(w: World, run: seq<Label>, w1: World, l: Label)
    requires Reaches(w, run, w1) && Enabled(w1, l)
    ensures Reaches(w, run + [l], Next(w1, l))
    decreases |run|
  {
    if |run| == 0 {
      assert run + [l] == [l] && [l][1..] == [];
      assert Reaches(Next(w, l), [], Next(w1, l));
    } else {
      Extend(Next(w, run[0]), run[1..], w1, l);
      assert (run + [l])[1..] == run[1..] + [l] && (run + [l])[0] == run[0];
    }
  }

  /** No motor iteration of the run found anything in the mixer queue. */
  ghost predicate MixerSilent(run: seq<Label>) {
    forall l :: l in run && l.MotorPass? ==> l.item.None?
  }

  const ENTER := Frame(1000, 1000, 1000, 2000, false)
  const LINK_LOST := Frame(1500, 1500, 1000, 1500, true)

  /** One more step at the end of a run. */
  lemma Do(run0: seq<Label>, w0: World, l: Label) returns (run: seq<Label>, w: World)
    requires Reaches(COLD, run0, w0) && Enabled(w0, l)
    ensures run == run0 + [l] && w == Next(w0, l) && Reaches(COLD, run, w)
    ensures MixerSilent(run0) && (l.MotorPass? ==> l.item.None?) ==> MixerSilent(run)
  {
    run, w := run0 + [l], Next(w0, l);
    Extend(COLD, run0, w0, l);
  }

  /** A first boot finds no request and comes up in STANDBY. */
  lemma FirstBoot() returns (run: seq<Label>, w: World)
    ensures Reaches(COLD, run, w) && MixerSilent(run)
    ensures w == Rebooted(COLD).(boot := Up, sys := Standby)
  {
    run, w := Do([], COLD, PowerOn);
    run, w := Do(run, w, BootRead);
    run, w := Do(run, w, BootFinish(true));
  }

  /** A held gesture queues a request. */
  lemma HeldGesture() returns (run: seq<Label>, w: World)
    ensures Reaches(COLD, run, w) && MixerSilent(run)
    ensures w.boot == Up && w.queue == 1 && !w.marker
    ensures w.writes == w.rewrites == w.calibrations == w.lostClears == w.cutShort == 0
  {
    run, w := FirstBoot();
    run, w := Do(run, w, RcFrame(ENTER, true));
    assert w.statics == POWER_ON.(holdingEnter := true, gestureMs := 0);
    run, w := Do(run, w, Tick(1500));
    assert Elapsed(Clock(w.ticks), 0) == 1500;
    run, w := Do(run, w, RcFrame(ENTER, true));
  }

  /** The storage owner puts it on the card; then the power goes. */
  lemma RequestOnCard() returns (run: seq<Label>, w: World)
    ensures Reaches(COLD, run, w) && MixerSilent(run)
    ensures w.boot == Down && w.marker && w.writes == 1 && w.calibrations == 0 && w.lostClears == 0
  {
    run, w := HeldGesture();
    run, w := Do(run, w, StorageTry(true, true, false));
    run, w := Do(run, w, PowerCut);
  }

  /** The next boot takes the request. */
  lemma BootTakes(run0: seq<Label>, w0: World, durable: bool) returns (run: seq<Label>, w: World)
    requires Reaches(COLD, run0, w0) && w0.boot == Down && w0.marker && MixerSilent(run0)
    ensures Reaches(COLD, run, w) && MixerSilent(run)
    ensures w.boot == Finishing && w.sys == SysState.EscCalib && w.statics == POWER_ON.(phase := High)
    ensures w.marker == !durable && w.prev == ZERO && w.writes == w0.writes
    ensures w.calibrations == w0.calibrations + 1 && w.lostClears == w0.lostClears + One(!durable)
  {
    run, w := Do(run0, w0, PowerOn);
    run, w := Do(run, w, BootRead);
    run, w := Do(run, w, BootClear(durable));
    run, w := Do(run, w, BootEnter);
  }

  /** The result of the clearing write is not looked at, so one request can be
      taken twice: here one durable write leads to two calibrations. */
  lemma LostClearRepeats() returns (run: seq<Label>, w: World)
    ensures Reaches(COLD, run, w) && w.writes == 1 && w.lostClears == 1 && w.calibrations == 2
  {
    run, w := RequestOnCard();
    run, w := BootTakes(run, w, false);
    run, w := Do(run, w, PowerCut);
    run, w := BootTakes(run, w, true);
  }

  /** The carried-over output can outlive calibration: if no motor iteration runs
      between the abort and the arming, the first armed iteration that finds the
      mixer queue empty repeats full throttle. */
  lemma StaleMaximum() returns (run: seq<Label>, w: World)
    ensures Reaches(COLD, run, w) && MixerSilent(run)
    ensures w.sys == Armed && w.statics.phase == Off && w.prev == All(1.0)
  {
    run, w := RequestOnCard();
    run, w := BootTakes(run, w, true);
    run, w := Do(run, w, MotorPass(None));
    assert w.prev == All(1.0);
    run, w := Do(run, w, BootFinish(true));
    run, w := Do(run, w, RcFrame(LINK_LOST, true));
    assert w.sys == Standby && w.statics.phase == Off;
    run, w := Do(run, w, OtherTask(Armed));
    run, w := Do(run, w, MotorPass(None));
  }
}
