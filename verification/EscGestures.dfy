/** What a whole run of RC frames within one boot can and cannot do. */
module EscGestures {
  import opened Bytes
  import opened SystemState
  import opened EscCalib

  /** A frame, the flight state it was serviced in, the true tick count and
      what the storage owner showed. */
  datatype Event = Event(rc: Frame, sys: SysState, ticks: nat, fs: Storage)

  function Serviced(s: Statics, e: Event): Outcome {
    RcStep(s, e.sys, e.rc, Clock(e.ticks), e.fs)
  }

  /** The statics after a run of frames. */
  function Frames(s: Statics, ev: seq<Event>): Statics
    decreases |ev|
  {
    if |ev| == 0 then s else Serviced(Frames(s, ev[..|ev| - 1]), ev[|ev| - 1]).s
  }

  ghost predicate InOrder(ev: seq<Event>) {
    forall i, j :: 0 <= i <= j < |ev| ==> ev[i].ticks <= ev[j].ticks
  }

  /** Both sticks down, the left one right and the right one left. */
  predicate EntrySticks(rc: Frame) {
    rc.throttle < 1150 && rc.pitch < 1150 && rc.yaw > 1850 && rc.roll < 1150
  }

  predicate EnterFrame(e: Event) {
    !e.rc.failsafe && e.sys == Standby && EntrySticks(e.rc)
  }

  predicate CloseFrame(e: Event) {
    && !e.rc.failsafe && e.sys == SysState.EscCalib
    && e.rc.throttle < 1150 && e.rc.pitch < 1150 && e.rc.yaw < 1150 && e.rc.roll > 1850
  }

  /** Frames j, j+1, ... all show the entry gesture. */
  ghost predicate EnterRun(ev: seq<Event>, j: nat) {
    j < |ev| && forall i :: j <= i < |ev| ==> EnterFrame(ev[i])
  }

  ghost predicate CloseRun(ev: seq<Event>, j: nat) {
    j < |ev| && forall i :: j <= i < |ev| ==> CloseFrame(ev[i])
  }

  ghost predicate Idle(s: Statics) {
    !s.holdingEnter && !s.holdingClose && (s.phase != Off ==> !s.awaitingCommit)
  }

  /** What the hold flags mean: the stamp is the tick of the frame that began
      an unbroken run of the gesture. */
  ghost predicate Honest(s: Statics, ev: seq<Event>) {
    && (s.phase != Off ==> !s.awaitingCommit)
    && (s.holdingEnter ==> s.phase == Off && !s.awaitingCommit)
    && (s.holdingEnter ==> exists j: nat :: EnterRun(ev, j) && s.gestureMs == Clock(ev[j].ticks))
    && (s.holdingClose ==> s.phase == High)
    && (s.holdingClose ==> exists j: nat :: CloseRun(ev, j) && s.gestureMs == Clock(ev[j].ticks))
  }

  lemma EnterRunOn(ev: seq<Event>, e: Event, j: nat)
    requires EnterRun(ev, j) && EnterFrame(e)
    ensures EnterRun(ev + [e], j)
  {}

  lemma CloseRunOn(ev: seq<Event>, e: Event, j: nat)
    requires CloseRun(ev, j) && CloseFrame(e)
    ensures CloseRun(ev + [e], j)
  {}

  lemma HonestStep(s: Statics, ev: seq<Event>, e: Event)
    requires Honest(s, ev)
    ensures Honest(Serviced(s, e).s, ev + [e])
  {
    var t := Serviced(s, e).s;
    var more := ev + [e];
    if t.holdingEnter {
      if s.holdingEnter {
        var j: nat :| EnterRun(ev, j) && s.gestureMs == Clock(ev[j].ticks);
        EnterRunOn(ev, e, j);
        assert more[j] == ev[j];
      } else {
        assert EnterRun(more, |ev|);
      }
    }
    if t.holdingClose {
      if s.holdingClose {
        var j: nat :| CloseRun(ev, j) && s.gestureMs == Clock(ev[j].ticks);
        CloseRunOn(ev, e, j);
        assert more[j] == ev[j];
      } else {
        assert CloseRun(more, |ev|);
      }
    }
  }

  lemma {:induction false} HonestRun(s: Statics, ev: seq<Event>)
    requires Idle(s)
    ensures Honest(Frames(s, ev), ev)
  {
    if |ev| > 0 {
      var front := ev[..|ev| - 1];
      HonestRun(s, front);
      HonestStep(Frames(s, front), front, ev[|ev| - 1]);
      assert front + [ev[|ev| - 1]] == ev;
    }
  }

  lemma ClockDifference(a: nat, b: nat)
    requires a <= b
    ensures Elapsed(Clock(b), Clock(a)) == (b - a) % TWO32 <= b - a
  {
    var qa, qb := a / TWO32, b / TWO32;
    assert Clock(b) - Clock(a) == (b - a) - (qb - qa) * TWO32;
    WrapsAround(b - a, qb - qa);
  }

  lemma WrapsAround(d: nat, k: int)
    ensures (d - k * TWO32) % TWO32 == d % TWO32
  {}

  /** A request is only ever queued at the end of an unbroken run of frames, all
      in STANDBY and none a failsafe, that hold the entry gesture for at least
      1500 true ticks, however the 32-bit clock wraps in between. */
  lemma RequestNeedsHeldGesture(s: Statics, ev: seq<Event>, e: Event)
    requires Idle(s) && InOrder(ev + [e])
    requires Serviced(Frames(s, ev), e).enqueued
    ensures exists j: nat :: EnterRun(ev + [e], j) && e.ticks - (ev + [e])[j].ticks >= 1500
  {
    HonestRun(s, ev);
    var s1 := Frames(s, ev);
    var j: nat :| EnterRun(ev, j) && s1.gestureMs == Clock(ev[j].ticks);
    var more := ev + [e];
    EnterRunOn(ev, e, j);
    assert more[j] == ev[j] && more[|ev|] == e;
    ClockDifference(ev[j].ticks, e.ticks);
  }

  /** The closing phase is only entered at the end of such a run of the closing
      gesture, all in ESC_CALIB. */
  lemma ClosingNeedsHeldGesture(s: Statics, ev: seq<Event>, e: Event)
    requires Idle(s) && InOrder(ev + [e])
    requires Frames(s, ev).phase == High && Serviced(Frames(s, ev), e).s.phase == Settle
    ensures exists j: nat :: CloseRun(ev + [e], j) && e.ticks - (ev + [e])[j].ticks >= 1500
  {
    HonestRun(s, ev);
    var s1 := Frames(s, ev);
    var j: nat :| CloseRun(ev, j) && s1.gestureMs == Clock(ev[j].ticks);
    var more := ev + [e];
    CloseRunOn(ev, e, j);
    assert more[j] == ev[j] && more[|ev|] == e;
    ClockDifference(ev[j].ticks, e.ticks);
  }

  // ----- a held gesture does its work

  /** The last event, and the statics it finds. */
  function Last(ev: seq<Event>): Event
    requires |ev| > 0
  {
    ev[|ev| - 1]
  }

  function Found(s: Statics, ev: seq<Event>): Statics
    requires |ev| > 0
  {
    Frames(s, ev[..|ev| - 1])
  }

  /** How long the frames have gone on. */
  function Span(ev: seq<Event>): int
    requires |ev| > 0
  {
    Last(ev).ticks - ev[0].ticks
  }

  /** Every frame but the last came less than `d` ticks after `since`. */
  ghost predicate EarlierWithin(ev: seq<Event>, since: nat, d: nat) {
    forall i :: 0 <= i < |ev| - 1 ==> ev[i].ticks - since < d
  }

  lemma FrontWithin(ev: seq<Event>, since: nat, d: nat)
    requires |ev| > 1 && InOrder(ev) && EarlierWithin(ev, since, d)
    ensures var front := ev[..|ev| - 1];
      InOrder(front) && EarlierWithin(front, since, d) && Last(front).ticks - since < d && front[0] == ev[0] &&
      Last(front).ticks <= Last(ev).ticks
  {
    var front := ev[..|ev| - 1];
    assert Last(front) == ev[|ev| - 2];
  }

  /** One frame of the closing gesture. */
  lemma ClosingFrame(s: Statics, e: Event, began: nat, first: nat)
    requires s.phase == High && !s.awaitingCommit && s.phaseMs == Clock(began) && CloseFrame(e)
    requires s.holdingClose ==> s.gestureMs == Clock(first)
    requires began <= first <= e.ticks < began + 60000
    ensures Serviced(s, e).s ==
      if !s.holdingClose then s.(holdingClose := true, gestureMs := Clock(e.ticks))
      else if e.ticks - first < 1500 then s
      else s.(phase := Settle, phaseMs := Clock(e.ticks), holdingClose := false)
  {
    ClockDifference(began, e.ticks);
    ClockDifference(first, e.ticks);
  }

  /** The closing gesture, held through a run of frames before the backstop, enters
      the closing phase at exactly the first frame that is 1500 ticks after the
      first of the run. */
  lemma {:induction false} ClosingHappens(s: Statics, began: nat, ev: seq<Event>)
    requires s.phase == High && !s.holdingClose && !s.awaitingCommit && s.phaseMs == Clock(began)
    requires |ev| > 0 && InOrder(ev) && began <= ev[0].ticks && Last(ev).ticks < began + 60000
    requires (forall i :: 0 <= i < |ev| ==> CloseFrame(ev[i])) && EarlierWithin(ev, ev[0].ticks, 1500)
    ensures Frames(s, ev) ==
      if Span(ev) >= 1500
      then s.(phase := Settle, phaseMs := Clock(Last(ev).ticks), holdingClose := false, gestureMs := Clock(ev[0].ticks))
      else s.(holdingClose := true, gestureMs := Clock(ev[0].ticks))
    decreases |ev|
  {
    hide Serviced, Clock, CloseFrame;
    assert ev[0].ticks <= Last(ev).ticks && CloseFrame(Last(ev));
    if |ev| == 1 {
      assert ev[..0] == [];
      ClosingFrame(s, ev[0], began, ev[0].ticks);
    } else {
      var front := ev[..|ev| - 1];
      FrontWithin(ev, ev[0].ticks, 1500);
      ClosingHappens(s, began, front);
      ClosingFrame(Frames(s, front), Last(ev), began, ev[0].ticks);
    }
  }

  /** One frame of the entry gesture. */
  lemma EntryFrame(s: Statics, e: Event, first: nat)
    requires s.phase == Off && !s.awaitingCommit && EnterFrame(e)
    requires s.holdingEnter ==> s.gestureMs == Clock(first)
    requires first <= e.ticks < first + 0x1_0000_0000
    ensures var o := Serviced(s, e);
      if !s.holdingEnter then !o.enqueued && o.s == s.(holdingEnter := true, gestureMs := Clock(e.ticks))
      else if e.ticks - first < 1500 then !o.enqueued && o.s == s
      else o.enqueued == e.fs.accepts && o.s == Requesting(s, e)
  {
    ClockDifference(first, e.ticks);
  }

  /** The statics once a request has been tried. */
  ghost function Requesting(s: Statics, e: Event): Statics {
    if e.fs.accepts
    then s.(holdingEnter := false, awaitingCommit := true, commitMark := e.fs.committed, commitWaitMs := Clock(e.ticks))
    else s.(holdingEnter := false)
  }

  /** The entry gesture, held through a run of frames in STANDBY, queues a request,
      if the queue takes it, at exactly the first frame that is 1500 ticks after
      the first of the run. */
  lemma {:induction false} RequestHappens(s: Statics, ev: seq<Event>)
    requires s.phase == Off && !s.holdingEnter && !s.awaitingCommit
    requires |ev| > 0 && InOrder(ev) && Span(ev) < 0x1_0000_0000
    requires (forall i :: 0 <= i < |ev| ==> EnterFrame(ev[i])) && EarlierWithin(ev, ev[0].ticks, 1500)
    ensures var o, held := Serviced(Found(s, ev), Last(ev)), s.(holdingEnter := true, gestureMs := Clock(ev[0].ticks));
      if Span(ev) >= 1500 then o.enqueued == Last(ev).fs.accepts && o.s == Requesting(held, Last(ev))
      else !o.enqueued && o.s == held
    decreases |ev|
  {
    hide Serviced, Clock, EnterFrame, Requesting;
    assert ev[0].ticks <= Last(ev).ticks && EnterFrame(Last(ev));
    if |ev| == 1 {
      assert ev[..0] == [];
      EntryFrame(s, ev[0], ev[0].ticks);
    } else {
      var front := ev[..|ev| - 1];
      FrontWithin(ev, ev[0].ticks, 1500);
      RequestHappens(s, front);
      assert Frames(s, front) == Serviced(Found(s, front), Last(front)).s;
      EntryFrame(Frames(s, front), Last(ev), ev[0].ticks);
    }
  }

  /** One frame while the endpoints are being stored. */
  lemma SettlingFrame(s: Statics, e: Event, began: nat)
    requires s.phase == Settle && !s.awaitingCommit && s.phaseMs == Clock(began)
    requires !e.rc.failsafe && e.sys == SysState.EscCalib && began <= e.ticks < began + 0x1_0000_0000
    ensures Serviced(s, e) ==
      if e.ticks - began < 2000 then Outcome(s, SysState.EscCalib, false)
      else Outcome(s.(phase := Off, holdingEnter := false, holdingClose := false), Standby, false)
  {
    ClockDifference(began, e.ticks);
  }

  /** The closing phase ends, in STANDBY, at exactly the first frame that is 2000
      ticks after it began. */
  lemma {:induction false} SettleEnds(s: Statics, began: nat, ev: seq<Event>)
    requires s.phase == Settle && !s.awaitingCommit && s.phaseMs == Clock(began)
    requires |ev| > 0 && InOrder(ev) && began <= ev[0].ticks && Last(ev).ticks < began + 0x1_0000_0000
    requires forall i :: 0 <= i < |ev| ==> !ev[i].rc.failsafe && ev[i].sys == SysState.EscCalib
    requires EarlierWithin(ev, began, 2000)
    ensures Serviced(Found(s, ev), Last(ev)) ==
      if Last(ev).ticks - began < 2000 then Outcome(s, SysState.EscCalib, false)
      else Outcome(s.(phase := Off, holdingEnter := false, holdingClose := false), Standby, false)
    decreases |ev|
  {
    hide Serviced, Clock;
    assert ev[0].ticks <= Last(ev).ticks && !Last(ev).rc.failsafe && Last(ev).sys == SysState.EscCalib;
    if |ev| == 1 {
      assert ev[..0] == [];
    } else {
      var front := ev[..|ev| - 1];
      FrontWithin(ev, began, 2000);
      SettleEnds(s, began, front);
      assert Frames(s, front) == Serviced(Found(s, front), Last(front)).s;
    }
    SettlingFrame(s, Last(ev), began);
  }

  /** Nothing in the frame resolves a request made at `asked`. */
  ghost predicate Unresolved(s: Statics, e: Event, asked: nat) {
    !e.fs.failed && e.fs.committed == s.commitMark && e.ticks - asked < 3000
  }

  lemma WaitingFrame(s: Statics, e: Event, asked: nat)
    requires s.awaitingCommit && s.commitWaitMs == Clock(asked) && !e.rc.failsafe
    requires asked <= e.ticks < asked + 0x1_0000_0000
    ensures Serviced(s, e) == Outcome(Resolved(s, e, asked), e.sys, false)
  {
    ClockDifference(asked, e.ticks);
  }

  /** The three ways a request is resolved: written, failed or timed out. */
  ghost function Resolved(s: Statics, e: Event, asked: nat): Statics {
    if e.fs.failed then s.(awaitingCommit := false)
    else if e.fs.committed != s.commitMark then s.(awaitingCommit := false, requestWritten := true)
    else if e.ticks - asked >= 3000 then s.(awaitingCommit := false)
    else s
  }

  /** A request waits, with no gesture looked at, until exactly the first frame that
      shows a failure, a changed commit count or 3000 ticks gone. */
  lemma {:induction false} RequestResolves(s: Statics, asked: nat, ev: seq<Event>)
    requires s.awaitingCommit && s.commitWaitMs == Clock(asked)
    requires |ev| > 0 && InOrder(ev) && asked <= ev[0].ticks && Last(ev).ticks < asked + 0x1_0000_0000
    requires forall i :: 0 <= i < |ev| ==> !ev[i].rc.failsafe
    requires forall i :: 0 <= i < |ev| - 1 ==> Unresolved(s, ev[i], asked)
    ensures Serviced(Found(s, ev), Last(ev)) == Outcome(Resolved(s, Last(ev), asked), Last(ev).sys, false)
    decreases |ev|
  {
    assert ev[0].ticks <= Last(ev).ticks;
    hide Serviced, Clock;
    if |ev| == 1 {
      assert ev[..0] == [];
    } else {
      var front := ev[..|ev| - 1];
      assert InOrder(front) && front[0] == ev[0] && Last(front) == ev[|ev| - 2];
      assert forall i :: 0 <= i < |front| - 1 ==> front[i] == ev[i];
      assert Last(front).ticks <= Last(ev).ticks && Unresolved(s, ev[|ev| - 2], asked);
      RequestResolves(s, asked, front);
      assert Frames(s, front) == Serviced(Found(s, front), Last(front)).s == s;
    }
    WaitingFrame(s, Last(ev), asked);
  }

  /** A failsafe frame, or a state other than ESC_CALIB, ends calibration at once;
      only the former asks for STANDBY, and only from ESC_CALIB. */
  lemma Aborts(s: Statics, e: Event)
    requires s.phase != Off && !s.awaitingCommit && (e.rc.failsafe || e.sys != SysState.EscCalib)
    ensures Serviced(s, e) ==
      Outcome(s.(phase := Off, holdingEnter := false, holdingClose := false),
              if e.sys == SysState.EscCalib then Standby else e.sys, false)
  {}

  // ----- the backstop

  /** When the frame before frame `i` was serviced. */
  function Before(began: nat, ev: seq<Event>, i: nat): nat
    requires i <= |ev|
  {
    if i == 0 then began else ev[i - 1].ticks
  }

  /** Frames arrive in order and at most `gap` ticks apart. */
  ghost predicate Spaced(began: nat, ev: seq<Event>, gap: nat) {
    forall i: nat :: i < |ev| ==> Before(began, ev, i) <= ev[i].ticks <= Before(began, ev, i) + gap
  }

  /** Close enough together for the 32-bit clock to see the timeout. */
  ghost predicate Steady(began: nat, ev: seq<Event>) {
    Spaced(began, ev, TWO32 - TIMEOUT_MS)
  }

  lemma SteadyFront(began: nat, ev: seq<Event>)
    requires |ev| > 0 && Steady(began, ev)
    ensures Steady(began, ev[..|ev| - 1])
  {
    var front := ev[..|ev| - 1];
    forall i: nat | i < |front|
      ensures Before(began, front, i) <= front[i].ticks <= Before(began, front, i) + (TWO32 - TIMEOUT_MS)
    {
      assert Before(began, front, i) == Before(began, ev, i) && front[i] == ev[i];
    }
  }

  /** One frame: if full throttle still stands, the timeout has not passed. */
  lemma HighStep(s: Statics, e: Event, began: nat, before: nat)
    requires s.phase == High && !s.awaitingCommit && s.phaseMs == Clock(began)
    requires began <= before < began + TIMEOUT_MS && before <= e.ticks <= before + (TWO32 - TIMEOUT_MS)
    requires Serviced(s, e).s.phase == High
    ensures Serviced(s, e).s.phaseMs == Clock(began) && e.ticks - began < TIMEOUT_MS
  {
    ClockDifference(began, e.ticks);
    assert Elapsed(Clock(e.ticks), s.phaseMs) < TIMEOUT_MS;
  }

  /** No frame leaves the full-throttle phase standing 60000 ticks or more after
      it began; and the phase is never entered again. */
  lemma {:induction false} HighTimesOut(s: Statics, began: nat, ev: seq<Event>)
    requires Idle(s) && s.phase == High && s.phaseMs == Clock(began)
    requires Steady(began, ev)
    ensures Frames(s, ev).phase == High ==> Frames(s, ev).phaseMs == Clock(began)
    ensures Frames(s, ev).phase == High ==> Before(began, ev, |ev|) - began < 60000
  {
    if |ev| > 0 {
      var n := |ev| - 1;
      var front, e := ev[..n], ev[n];
      SteadyFront(began, ev);
      HighTimesOut(s, began, front);
      HonestRun(s, front);
      SteadyOrder(began, front);
      hide Serviced, Steady, Clock;
      var s1 := Frames(s, front);
      NeverHighAgain(s1, e);
      if Serviced(s1, e).s.phase == High {
        var before := Before(began, front, n);
        assert before == Before(began, ev, n);
        SteadyAt(began, ev, n);
        HighStep(s1, e, began, before);
      }
    }
  }

  lemma SteadyAt(began: nat, ev: seq<Event>, i: nat)
    requires Steady(began, ev) && i < |ev|
    ensures Before(began, ev, i) <= ev[i].ticks <= Before(began, ev, i) + (TWO32 - TIMEOUT_MS)
  {}

  lemma {:induction false} SteadyOrder(began: nat, ev: seq<Event>)
    requires Steady(began, ev)
    ensures began <= Before(began, ev, |ev|)
  {
    if |ev| > 0 {
      var n := |ev| - 1;
      SteadyFront(began, ev);
      SteadyOrder(began, ev[..n]);
      assert Before(began, ev, n) == Before(began, ev[..n], n) <= ev[n].ticks;
    }
  }

  lemma NeverHighAgain(s: Statics, e: Event)
    ensures Serviced(s, e).s.phase == High ==> s.phase == High && Serviced(s, e).s.phaseMs == s.phaseMs
  {}

  /** A frame with the sticks at rest. */
  function Neutral(ticks: nat): Event {
    Event(Frame(1500, 1500, 1000, 1500, false), SysState.EscCalib, ticks, Storage(true, false, 0))
  }

  /** Whenever the phase began and whatever the frames do, as long as they come
      at most `gap` ticks apart the backstop ends full throttle in time. */
  ghost predicate BackstopHolds(gap: nat) {
    forall s: Statics, began: nat, ev: seq<Event> ::
      Idle(s) && s.phase == High && s.phaseMs == Clock(began) && Spaced(began, ev, gap) &&
      Frames(s, ev).phase == High ==>
      Before(began, ev, |ev|) - began < 60000
  }

  /** One tick more between two frames is too much: the first finds the timeout
      one tick away, the second finds no time elapsed at all. */
  lemma BackstopMissed(s: Statics, ev: seq<Event>)
    requires s == POWER_ON.(phase := High, phaseMs := Clock(0))
    requires ev == [Neutral(TIMEOUT_MS - 1), Neutral(TWO32)]
    ensures Idle(s) && Spaced(0, ev, TWO32 - TIMEOUT_MS + 1)
    ensures Frames(s, ev).phase == High && Before(0, ev, |ev|) >= TIMEOUT_MS
  {
    var a, b := ev[0], ev[1];
    assert ev[..1] == [a] && [a][..0] == [];
    var s1 := Serviced(s, a).s;
    assert Frames(s, [a]) == s1;
    assert Elapsed(Clock(a.ticks), s.phaseMs) == TIMEOUT_MS - 1;
    assert s1 == s;
    assert Elapsed(Clock(b.ticks), s.phaseMs) == 0;
    assert Frames(s, ev) == Serviced(s1, b).s;
  }

  /** So frames may be up to 2^32 - 60000 ticks apart, and no more. */
  lemma BackstopExact(gap: nat)
    ensures BackstopHolds(gap) <==> gap <= 0x1_0000_0000 - 60000
  {
    if gap <= TWO32 - TIMEOUT_MS {
      forall s: Statics, began: nat, ev: seq<Event> |
        Idle(s) && s.phase == High && s.phaseMs == Clock(began) && Spaced(began, ev, gap) && Frames(s, ev).phase == High
        ensures Before(began, ev, |ev|) - began < TIMEOUT_MS
      {
        SpacedMore(began, ev, gap, TWO32 - TIMEOUT_MS);
        HighTimesOut(s, began, ev);
      }
    } else {
      var s := POWER_ON.(phase := High, phaseMs := Clock(0));
      var ev := [Neutral(TIMEOUT_MS - 1), Neutral(TWO32)];
      BackstopMissed(s, ev);
      SpacedMore(0, ev, TWO32 - TIMEOUT_MS + 1, gap);
    }
  }

  lemma SpacedMore(began: nat, ev: seq<Event>, gap: nat, more: nat)
    requires gap <= more && Spaced(began, ev, gap)
    ensures Spaced(began, ev, more)
  {}
}
