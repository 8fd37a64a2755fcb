/** The writer of the circular recording: one sector per ring slot, a sequence
    number that never resets, and a cursor hint that a power cut leaves behind. */
module RingLog {
  import opened Bytes
  import opened Generations

  const HDR_SYNC_FRAMES := 16
  const SEQ_RESUME_MARGIN := HDR_SYNC_FRAMES * 2

  /** What a slot holds: nothing of ours, or the sector of the k-th write. */
  datatype Slot = Blank | Holds(k: nat)

  datatype Ring = Ring(
    // on the card
    slots: seq<Slot>, hintSlot: nat, hintNext: nat, hintWraps: nat,
    // in memory
    slot: nat, next: nat, wraps: nat, since: nat, due: bool,
    // history: the sequence number of every write, and how many writes came
    // before each power cut
    log: seq<nat>, cuts: seq<nat>)
  {
    /** How far round the ring the writer, and its hint, have come. */
    function Head(): nat {
      wraps * |slots| + slot
    }

    function HintHead(): nat {
      hintWraps * |slots| + hintSlot
    }

    /** How far the next sequence number is ahead of the hint's. */
    function Lag(): int {
      next - hintNext
    }
  }

  datatype Label = Write | Flush(durable: bool, reset: bool) | Reboot(durable: bool)

  function Created(n: nat): Ring {
    Ring(seq(n, i => Blank), 0, 1, 0, 0, 1, 0, 0, false, [], [])
  }

  predicate Enabled(r: Ring, l: Label) {
    l.Write? ==> !r.due && r.slot < |r.slots|
  }

  function AfterWrite(r: Ring): Ring
    requires r.slot < |r.slots|
  {
    var slots := r.slots[r.slot := Holds(|r.log|)];
    var wrap := r.slot + 1 >= |r.slots|;
    r.(slots := slots, log := r.log + [r.next], next := r.next + 1,
       slot := if wrap then 0 else r.slot + 1, wraps := if wrap then r.wraps + 1 else r.wraps,
       since := r.since + 1, due := r.since + 1 >= HDR_SYNC_FRAMES)
  }

  /** Rewriting the hint.  A failed attempt may or may not reset the countdown,
      depending on whether the write or only the sync went wrong. */
  function AfterFlush(r: Ring, durable: bool, reset: bool): Ring {
    if durable
    then r.(hintSlot := r.slot, hintNext := r.next, hintWraps := r.wraps, since := 0, due := false)
    else r.(since := if reset then 0 else r.since, due := false)
  }

  /** A power cut and the next boot: back to the hint, with the margin added to
      the sequence number.  The hint is then rewritten, but nobody looks at
      whether that reached the card. */
  function AfterReboot(r: Ring, durable: bool): Ring {
    var next := r.hintNext + SEQ_RESUME_MARGIN;
    r.(slot := r.hintSlot, next := next, wraps := r.hintWraps, hintNext := if durable then next else r.hintNext,
       since := 0, due := false, cuts := r.cuts + [|r.log|])
  }

  function Next(r: Ring, l: Label): Ring
    requires Enabled(r, l)
  {
    match l
    case Write => AfterWrite(r)
    case Flush(durable, reset) => AfterFlush(r, durable, reset)
    case Reboot(durable) => AfterReboot(r, durable)
  }

  /** A run in which no power cut found the hint more than `b` frames behind. */
  ghost predicate Reaches(r: Ring, run: seq<Label>, r': Ring, b: nat)
    decreases |run|
  {
    if |run| == 0 then r' == r
    else
      Enabled(r, run[0]) && (run[0].Reboot? ==> r.Lag() <= b) &&
      Reaches(Next(r, run[0]), run[1..], r', b)
  }

  // ----- what every step keeps

  ghost predicate Increasing(log: seq<nat>) {
    forall i, j :: 0 <= i < j < |log| ==> log[i] < log[j]
  }

  /** Each write sits in at most one slot. */
  ghost predicate Distinct(slots: seq<Slot>, n: nat) {
    && (forall i :: 0 <= i < |slots| && slots[i].Holds? ==> slots[i].k < n)
    && (forall i, j :: 0 <= i < j < |slots| && slots[i].Holds? && slots[j].Holds? ==> slots[i].k != slots[j].k)
  }

  /** The sequence number that write `c` has or will have. */
  function SeqAt(r: Ring, c: nat): nat {
    if c < |r.log| then r.log[c] else r.next
  }

  /** Across every cut the sequence numbers jump. */
  ghost predicate Jumps(r: Ring, b: nat) {
    forall c :: c in r.cuts ==>
      c <= |r.log| && forall k :: 0 <= k < c ==> r.log[k] + 1 + SEQ_RESUME_MARGIN - b <= SeqAt(r, c)
  }

  ghost predicate Cursor(r: Ring) {
    && r.slot < |r.slots| && r.hintSlot < |r.slots|
    && 0 <= r.Head() - r.HintHead() <= r.Lag()
  }

  ghost predicate Filled(r: Ring, b: nat) {
    && (forall i :: 0 <= i < |r.slots| && i < r.Head() ==> r.slots[i].Holds?)
    && |r.log| <= r.Head() + b * |r.cuts|
  }

  ghost predicate Ordered(r: Ring, b: nat) {
    && Increasing(r.log) && (forall k :: 0 <= k < |r.log| ==> r.log[k] < r.next)
    && Distinct(r.slots, |r.log|) && Jumps(r, b)
  }

  /** Every number from the one a resume would use on has been written. */
  ghost predicate Tail(r: Ring) {
    forall v :: r.hintNext + SEQ_RESUME_MARGIN <= v < r.next ==> v in r.log
  }

  ghost predicate Inv(r: Ring, b: nat) {
    Cursor(r) && Filled(r, b) && Ordered(r, b) && Tail(r)
  }

  lemma WriteAdvances(r: Ring)
    requires r.slot < |r.slots|
    ensures AfterWrite(r).Head() == r.Head() + 1
  {}

  lemma HeadOfSlot(r: Ring)
    requires r.slot < |r.slots|
    ensures r.Head() < |r.slots| ==> r.Head() == r.slot
  {}

  lemma WriteKeepsInv(r: Ring, b: nat)
    requires Inv(r, b) && b <= SEQ_RESUME_MARGIN
    ensures Inv(AfterWrite(r), b)
  {
    var w := AfterWrite(r);
    WriteAdvances(r);
    HeadOfSlot(r);
    assert Cursor(w);
    forall i | 0 <= i < |w.slots| && i < w.Head() ensures w.slots[i].Holds? {
      if i != r.slot && i >= r.Head() {
        assert false;
      }
    }
    assert Ordered(w, b) by {
      assert forall k :: 0 <= k < |r.log| ==> w.log[k] == r.log[k];
      assert forall c :: c in r.cuts ==> SeqAt(w, c) == SeqAt(r, c);
    }
  }

  lemma RebootKeepsInv(r: Ring, b: nat, durable: bool)
    requires Inv(r, b) && b <= SEQ_RESUME_MARGIN && r.Lag() <= b
    ensures Inv(AfterReboot(r, durable), b)
  {
    var w := AfterReboot(r, durable);
    assert w.Head() == r.HintHead();
    OneMoreCut(b, |r.cuts|);
    assert Cursor(w) && Filled(w, b);
    hide Cursor, Filled, Ring.Head, Ring.HintHead;
    forall c | c in w.cuts
      ensures c <= |w.log| && forall k :: 0 <= k < c ==> w.log[k] + 1 + SEQ_RESUME_MARGIN - b <= SeqAt(w, c)
    {
      if c in r.cuts && c < |r.log| {
        assert SeqAt(w, c) == SeqAt(r, c);
      }
    }
  }

  lemma OneMoreCut(b: nat, n: nat)
    ensures b * (n + 1) == b * n + b
  {}

  lemma StepKeepsInv(r: Ring, l: Label, b: nat)
    requires Inv(r, b) && b <= SEQ_RESUME_MARGIN && Enabled(r, l) && (l.Reboot? ==> r.Lag() <= b)
    ensures Inv(Next(r, l), b)
  {
    match l
    case Write => WriteKeepsInv(r, b);
    case Flush(durable, reset) =>
    case Reboot(durable) => RebootKeepsInv(r, b, durable);
  }

  lemma {:induction false} RunKeepsInv(r: Ring, run: seq<Label>, r': Ring, b: nat)
    requires Inv(r, b) && b <= SEQ_RESUME_MARGIN && Reaches(r, run, r', b)
    ensures Inv(r', b)
    decreases |run|
  {
    if |run| > 0 {
      StepKeepsInv(r, run[0], b);
      RunKeepsInv(Next(r, run[0]), run[1..], r', b);
    }
  }

  lemma CreatedInv(n: nat, b: nat)
    requires n > 0
    ensures Inv(Created(n), b)
  {}

  // ----- what follows for the reader

  /** No two live slots carry the same sequence number, and a larger number
      means a later write. */
  lemma LiveSlotsDistinct(n: nat, run: seq<Label>, r: Ring, i: nat, j: nat)
    requires n > 0 && Reaches(Created(n), run, r, SEQ_RESUME_MARGIN)
    requires i < |r.slots| && j < |r.slots| && i != j && r.slots[i].Holds? && r.slots[j].Holds?
    ensures r.slots[i].k < |r.log| && r.slots[j].k < |r.log|
    ensures r.slots[i].k != r.slots[j].k
    ensures r.log[r.slots[i].k] < r.log[r.slots[j].k] <==> r.slots[i].k < r.slots[j].k
  {
    CreatedInv(n, SEQ_RESUME_MARGIN);
    RunKeepsInv(Created(n), run, r, SEQ_RESUME_MARGIN);
    assert i < j || j < i;
  }

  /** Write `k` is still somewhere in the ring. */
  ghost predicate LiveUpTo(r: Ring, n: nat, k: nat) {
    exists i :: 0 <= i < n && i < |r.slots| && r.slots[i] == Holds(k)
  }

  ghost predicate Live(r: Ring, k: nat) {
    LiveUpTo(r, |r.slots|, k)
  }

  /** How many writes ago slot `i` was passed, if nothing ever went back. */
  function Behind(r: Ring, i: nat): int {
    if i < r.slot then r.slot - i else r.slot + |r.slots| - i
  }

  /** No slot is older than that by more than `b` writes per cut. */
  ghost predicate Recent(r: Ring, b: nat) {
    forall i :: 0 <= i < |r.slots| && r.slots[i].Holds? ==> |r.log| - r.slots[i].k <= Behind(r, i) + b * |r.cuts|
  }

  lemma LapsBack(n: nat, d: int)
    requires n > 0 && d < 0
    ensures d * n + n <= 0
  {}

  /** Going back to the hint, on the ring. */
  lemma CursorBack(r: Ring)
    requires Cursor(r)
    ensures if r.hintSlot <= r.slot then r.slot - r.hintSlot <= r.Lag() else r.slot + |r.slots| - r.hintSlot <= r.Lag()
  {
    var n, d := |r.slots|, r.wraps - r.hintWraps;
    assert r.Head() - r.HintHead() == d * n + (r.slot - r.hintSlot);
    if d < 0 {
      LapsBack(n, d);
    } else if d > 0 {
      assert (d - 1) * n >= 0;
      assert d * n == (d - 1) * n + n;
    }
  }

  lemma RebootKeepsRecent(r: Ring, b: nat, durable: bool)
    requires Cursor(r) && r.Lag() <= b && Recent(r, b)
    ensures Recent(AfterReboot(r, durable), b)
  {
    var w := AfterReboot(r, durable);
    CursorBack(r);
    OneMoreCut(b, |r.cuts|);
    hide Cursor;
  }

  lemma {:induction false} RunKeepsRecent(r: Ring, run: seq<Label>, r': Ring, b: nat)
    requires Inv(r, b) && Recent(r, b) && b <= SEQ_RESUME_MARGIN && Reaches(r, run, r', b)
    ensures Recent(r', b)
    decreases |run|
  {
    if |run| > 0 {
      StepKeepsInv(r, run[0], b);
      if run[0].Reboot? {
        RebootKeepsRecent(r, b, run[0].durable);
      }
      RunKeepsRecent(Next(r, run[0]), run[1..], r', b);
    }
  }

  // ----- counting what is lost

  /** The writes `a`, ..., `b - 1`. */
  function Between(a: nat, b: nat): (s: set<nat>)
    requires a <= b
    ensures forall k :: k in s <==> a <= k < b
    ensures |s| == b - a
    decreases b
  {
    if a == b then {} else Between(a, b - 1) + {b - 1}
  }

  /** The writes held by the slots. */
  function HeldIn(slots: seq<Slot>): set<nat> {
    set i | 0 <= i < |slots| && slots[i].Holds? :: slots[i].k
  }

  lemma {:induction false} KeptAtLeast(slots: seq<Slot>, m: nat, n: nat)
    requires m <= |slots| && Distinct(slots, n) && forall i :: 0 <= i < m ==> slots[i].Holds?
    ensures |HeldIn(slots[..m])| == m
    decreases m
  {
    if m > 0 {
      KeptAtLeast(slots, m - 1, n);
      var k := slots[m - 1].k;
      assert k !in HeldIn(slots[..m - 1]);
      assert slots[..m][m - 1] == slots[m - 1];
      forall x ensures x in HeldIn(slots[..m]) <==> x in HeldIn(slots[..m - 1]) || x == k {
        if x in HeldIn(slots[..m - 1]) {
          var i :| 0 <= i < m - 1 && slots[..m - 1][i].Holds? && slots[..m - 1][i].k == x;
          assert slots[..m][i].k == x;
        }
      }
      assert HeldIn(slots[..m]) == HeldIn(slots[..m - 1]) + {k};
    } else {
      assert HeldIn(slots[..0]) == {};
    }
  }

  /** The most recent `m` writes, or all if there are fewer. */
  function Latest(r: Ring, m: nat): set<nat> {
    Between(if m <= |r.log| then |r.log| - m else 0, |r.log|)
  }

  ghost function Lost(r: Ring, m: nat): set<nat> {
    set k | k in Latest(r, m) && !Live(r, k)
  }

  lemma Without(a: set<nat>, b: set<nat>)
    requires a <= b
    ensures |b - a| == |b| - |a|
  {}

  /** The slots passed at least once hold that many different writes. */
  lemma KeptWrites(r: Ring, b: nat) returns (kept: set<nat>)
    requires Inv(r, b)
    ensures |kept| == (if r.Head() < |r.slots| then r.Head() else |r.slots|) && forall k :: k in kept ==> Live(r, k)
  {
    var m := if r.Head() < |r.slots| then r.Head() else |r.slots|;
    KeptAtLeast(r.slots, m, |r.log|);
    kept := HeldIn(r.slots[..m]);
    forall k | k in kept ensures Live(r, k) {
      var i :| 0 <= i < m && r.slots[..m][i].Holds? && r.slots[..m][i].k == k;
      assert r.slots[i] == Holds(k);
    }
  }

  lemma LiveRecent(r: Ring, b: nat, k: nat)
    requires Inv(r, b) && Recent(r, b) && Live(r, k)
    ensures k in Latest(r, |r.slots| + b * |r.cuts|)
  {
    var i :| 0 <= i < |r.slots| && r.slots[i] == Holds(k);
  }

  /** What power cuts cost.  However often the ring has wrapped, what it holds is
      from the last capacity-and-`b`-per-cut writes, and of those at most `b`
      per cut are missing. */
  lemma CutCosts(n: nat, run: seq<Label>, r: Ring, b: nat)
    requires n > 0 && b <= SEQ_RESUME_MARGIN && Reaches(Created(n), run, r, b)
    ensures |r.slots| == n
    ensures forall k :: Live(r, k) ==> k in Latest(r, n + b * |r.cuts|)
    ensures |Lost(r, n + b * |r.cuts|)| <= b * |r.cuts|
  {
    CreatedInv(n, b);
    RunKeepsInv(Created(n), run, r, b);
    RunKeepsRecent(Created(n), run, r, b);
    SameSize(Created(n), run, r, b);
    var kept := KeptWrites(r, b);
    var c := b * |r.cuts|;
    hide Recent, Cursor, Ordered, Tail, Reaches, Live, Ring.Head;
    forall k | Live(r, k) ensures k in Latest(r, n + c) {
      LiveRecent(r, b, k);
    }
    var latest, lost := Latest(r, n + c), Lost(r, n + c);
    Without(kept, latest);
    Smaller(lost, latest - kept);
  }

  lemma Smaller(a: set<nat>, b: set<nat>)
    requires a <= b
    ensures |a| <= |b|
  {
    Without(a, b);
  }

  lemma {:induction false} SameSize(r: Ring, run: seq<Label>, r': Ring, b: nat)
    requires Reaches(r, run, r', b)
    ensures |r'.slots| == |r.slots|
    decreases |run|
  {
    if |run| > 0 {
      SameSize(Next(r, run[0]), run[1..], r', b);
    }
  }

  // ----- the margin is exactly enough

  /** After a power cut the next frame's number is new, and larger than all
      before it, exactly when the next number was no further ahead of the hint
      than the margin. */
  lemma MarginExact(r: Ring, b: nat, durable: bool)
    requires Inv(r, b) && b <= SEQ_RESUME_MARGIN
    ensures Increasing(AfterWrite(AfterReboot(r, durable)).log) <==> r.Lag() <= 32
    ensures r.Lag() > 32 ==> AfterReboot(r, durable).next in r.log
  {
    var w := AfterWrite(AfterReboot(r, durable));
    var n := |r.log|;
    assert w.log == r.log + [r.hintNext + SEQ_RESUME_MARGIN];
    if r.Lag() > SEQ_RESUME_MARGIN {
      assert r.hintNext + SEQ_RESUME_MARGIN in r.log;
      var k :| 0 <= k < n && r.log[k] == r.hintNext + SEQ_RESUME_MARGIN;
      assert w.log[k] == w.log[n];
    } else {
      forall i, j | 0 <= i < j < |w.log| ensures w.log[i] < w.log[j] {
        assert w.log[i] == r.log[i];
      }
    }
  }

  // ----- runs in which the hint is always written

  ghost predicate Steps(r: Ring, run: seq<Label>, r': Ring)
    decreases |run|
  {
    if |run| == 0 then r' == r else Enabled(r, run[0]) && Steps(Next(r, run[0]), run[1..], r')
  }

  ghost predicate AllDurable(run: seq<Label>) {
    forall l :: l in run && !l.Write? ==> l.durable
  }

  ghost predicate Prompt(r: Ring) {
    r.since == r.Lag() <= HDR_SYNC_FRAMES && (r.Lag() == HDR_SYNC_FRAMES ==> r.due)
  }

  /** If every rewriting of the hint reaches the card, no power cut ever finds it
      more than sixteen frames behind. */
  lemma {:induction false} DurableHintsBound(r: Ring, run: seq<Label>, r': Ring)
    requires Prompt(r) && AllDurable(run) && Steps(r, run, r')
    ensures Reaches(r, run, r', 16) && Prompt(r')
    decreases |run|
  {
    if |run| > 0 {
      assert run[0] in run;
      assert forall l :: l in run[1..] ==> l in run;
      DurableHintsBound(Next(r, run[0]), run[1..], r');
    }
  }

  // ----- the margin can be exceeded

  lemma {:induction false} Extend(r: Ring, run: seq<Label>, r1: Ring, l: Label)
    requires Steps(r, run, r1) && Enabled(r1, l)
    ensures Steps(r, run + [l], Next(r1, l))
    decreases |run|
  {
    if |run| == 0 {
      assert run + [l] == [l] && [l][1..] == [];
      assert Steps(Next(r, l), [], Next(r1, l));
    } else {
      Extend(Next(r, run[0]), run[1..], r1, l);
      assert (run + [l])[1..] == run[1..] + [l] && (run + [l])[0] == run[0];
    }
  }

  /** The recorder after `k` writes if no rewriting of the hint ever succeeds. */
  ghost predicate Unhinted(r: Ring, k: nat) {
    && r.slot < |r.slots| && r.hintNext == 1 && r.next == k + 1 && !r.due
    && |r.log| == k && forall i :: 0 <= i < k ==> r.log[i] == i + 1
  }

  lemma {:induction false} UnhintedRun(n: nat, k: nat) returns (run: seq<Label>, r: Ring)
    requires n > 0
    ensures Steps(Created(n), run, r) && Unhinted(r, k) && NoCut(run)
  {
    if k == 0 {
      run, r := [], Created(n);
    } else {
      var run0, r0 := UnhintedRun(n, k - 1);
      Extend(Created(n), run0, r0, Write);
      run, r := run0 + [Write], AfterWrite(r0);
      if r.due {
        Extend(Created(n), run, r, Flush(false, true));
        run, r := run + [Flush(false, true)], AfterFlush(r, false, true);
      }
    }
  }

  /** Hints that do not reach the card: after 33 writes and one power cut a
      number is used again. */
  lemma LostHintsRepeat(n: nat) returns (run: seq<Label>, r: Ring)
    requires n > 0
    ensures Steps(Created(n), run, r) && |r.cuts| == 1 && |r.log| == 34 && r.log[32] == r.log[33]
  {
    var run0, r0 := UnhintedRun(n, SEQ_RESUME_MARGIN + 1);
    Extend(Created(n), run0, r0, Reboot(true));
    var run1, r1 := run0 + [Reboot(true)], AfterReboot(r0, true);
    NoCuts(Created(n), run0, r0);
    Extend(Created(n), run1, r1, Write);
    run, r := run1 + [Write], AfterWrite(r1);
  }

  lemma {:induction false} NoCuts(r: Ring, run: seq<Label>, r': Ring)
    requires Steps(r, run, r') && NoCut(run) && r.slot < |r.slots| && r.hintSlot < |r.slots|
    ensures r'.cuts == r.cuts && r'.hintSlot < |r'.slots|
    decreases |run|
  {
    if |run| > 0 {
      assert run[0] in run && forall l :: l in run[1..] ==> l in run;
      NoCuts(Next(r, run[0]), run[1..], r');
    }
  }

  /** A single rewriting that fails at boot, where the result is discarded, is
      enough: one frame later the margin is used up. */
  lemma LostBootHintRepeats(n: nat) returns (run: seq<Label>, r: Ring)
    requires n > 0
    ensures Steps(Created(n), run, r) && |r.cuts| == 2 && |r.log| == 3 && r.log[1] == r.log[2]
  {
    run, r := [], Created(n);
    Extend(Created(n), run, r, Write);
    run, r := run + [Write], AfterWrite(r);
    Extend(Created(n), run, r, Reboot(false));
    run, r := run + [Reboot(false)], AfterReboot(r, false);
    Extend(Created(n), run, r, Write);
    run, r := run + [Write], AfterWrite(r);
    Extend(Created(n), run, r, Reboot(true));
    run, r := run + [Reboot(true)], AfterReboot(r, true);
    Extend(Created(n), run, r, Write);
    run, r := run + [Write], AfterWrite(r);
  }

  // ----- without a power cut

  /** What the i-th slot holds after an uninterrupted run: this lap's write
      behind the cursor, the last lap's at and ahead of it. */
  function Expected(r: Ring, i: nat): Slot {
    if i < r.slot then Holds(Lap(r) + i)
    else if r.wraps > 0 && Lap(r) + i >= |r.slots| then Holds(Lap(r) + i - |r.slots|)
    else Blank
  }

  /** The number of writes when the current lap began. */
  function Lap(r: Ring): nat {
    if |r.log| >= r.slot then |r.log| - r.slot else 0
  }

  ghost predicate Unbroken(r: Ring) {
    && r.slot < |r.slots| && r.cuts == []
    && (if r.wraps == 0 then |r.log| == r.slot else |r.log| >= r.slot + |r.slots|)
    && (forall k :: 0 <= k < |r.log| ==> r.log[k] == k + 1) && r.next == |r.log| + 1
    && (forall i :: 0 <= i < |r.slots| ==> r.slots[i] == Expected(r, i))
  }

  lemma UnbrokenWrite(r: Ring)
    requires Unbroken(r)
    ensures Unbroken(AfterWrite(r))
  {
    var w := AfterWrite(r);
    forall i | 0 <= i < |w.slots| ensures w.slots[i] == Expected(w, i) {
      assert r.slots[i] == Expected(r, i);
    }
  }

  ghost predicate NoCut(run: seq<Label>) {
    forall l :: l in run ==> !l.Reboot?
  }

  /** With no power cut the ring holds exactly the most recent writes, and their
      numbers run without a gap. */
  lemma {:induction false} NoCutNoGap(r: Ring, run: seq<Label>, r': Ring)
    requires Unbroken(r) && NoCut(run) && Steps(r, run, r')
    ensures Unbroken(r')
    decreases |run|
  {
    if |run| > 0 {
      assert run[0] in run && forall l :: l in run[1..] ==> l in run;
      if run[0].Write? {
        UnbrokenWrite(r);
      }
      NoCutNoGap(Next(r, run[0]), run[1..], r');
    }
  }

  // ----- the writer as it runs

  /** A slot of the card: what it held before, or write `k` under some sentinel. */
  datatype CardSlot = Unwritten | Carries(sentinel: byte, k: nat)

  /** The slots that carry the sentinel. */
  function Ours(card: seq<CardSlot>, sentinel: byte): (s: seq<Slot>)
    ensures |s| == |card|
  {
    seq(|card|, i requires 0 <= i < |card| =>
      if card[i].Carries? && card[i].sentinel == sentinel then Holds(card[i].k) else Blank)
  }

  /** No slot carries it. */
  ghost predicate Foreign(card: seq<CardSlot>, sentinel: byte) {
    forall i :: 0 <= i < |card| && card[i].Carries? ==> card[i].sentinel != sentinel
  }

  lemma ForeignIsBlank(card: seq<CardSlot>, sentinel: byte)
    requires Foreign(card, sentinel)
    ensures Ours(card, sentinel) == seq(|card|, i => Blank)
  {}

  /** What a boot finds: a header to resume from, one that names a slot outside the
      ring, or none for this ring, over an older header or over nothing. */
  datatype Found = Resumable | Misplaced | Older(gen: u32) | Nothing(cycles: u32)

  /** The generation a boot that starts over takes. */
  function StartOver(found: Found): u32
    requires !found.Resumable?
  {
    match found
    case Misplaced => 0
    case Older(gen) => NewGeneration(gen)
    case Nothing(cycles) => Chosen(cycles)
  }

  /** Starting over an older file whose frames are all its own, they are all told
      apart, since no file has a generation with low byte 0xFF. */
  lemma OlderIsForeign(card: seq<CardSlot>, gen: u32)
    requires forall i :: 0 <= i < |card| && card[i].Carries? ==> card[i].sentinel == SentinelFor(gen)
    requires gen % 0x100 != 0xFF
    ensures Foreign(card, SentinelFor(StartOver(Older(gen))))
  {
    GenerationsDiffer(gen);
  }

  method PickGeneration(found: Found) returns (gen: u32)
    requires !found.Resumable?
    ensures gen == StartOver(found)
  {
    if found.Misplaced? {
      return 0;
    }
    gen := if found.Older? then (found.gen + 1) % TWO32 else found.cycles;
    if SentinelFor(gen) == SentinelFor((gen + 1) % TWO32) {
      gen := (gen + 1) % TWO32;
    }
  }

  class RingWriter {
    var card: array<CardSlot>
    var hintSlot: nat
    var hintNext: nat
    var hintWraps: nat
    var hintGen: u32
    var slot: nat
    var next: nat
    var wraps: nat
    var since: nat
    var gen: u32
    ghost var log: seq<nat>
    ghost var cuts: seq<nat>

    ghost predicate Valid()
      reads this
    {
      slot < card.Length && hintSlot < card.Length
    }

    ghost function Abstract(): Ring
      reads this, card
    {
      Ring(Ours(card[..], SentinelFor(gen)), hintSlot, hintNext, hintWraps, slot, next, wraps, since, false, log, cuts)
    }

    constructor (n: nat, gen: u32)
      requires n > 0
      ensures Valid() && fresh(card) && this.gen == gen && Abstract() == Created(n)
    {
      card := new CardSlot[n](i => Unwritten);
      hintSlot, hintNext, hintWraps, slot, next, wraps, since := 0, 1, 0, 0, 1, 0, 0;
      this.gen, hintGen := gen, gen;
      log, cuts := [], [];
      new;
      assert Ours(card[..], SentinelFor(gen)) == seq(n, i => Blank);
    }

    /** `written` and `synced` say how the file system answered; `durable` is
        whether the hint is on the card afterwards. */
    method FlushPreamble(written: bool, synced: bool, durable: bool) returns (ok: bool)
      requires Valid() && (written && synced ==> durable) && (durable ==> written)
      modifies this
      ensures Valid() && card == old(card) && gen == old(gen) && ok == (written && synced)
      ensures hintGen == if durable then gen else old(hintGen)
      ensures Abstract() == AfterFlush(old(Abstract()), durable, written)
    {
      if durable {
        hintSlot, hintNext, hintWraps, hintGen := slot, next, wraps, gen;
      }
      if !written {
        return false;
      }
      since := 0;
      return synced;
    }

    /** Puts the sector into its slot and moves on. */
    method Put(sec: nat)
      requires Valid() && sec == |log|
      modifies this, card
      ensures Valid() && card == old(card) && gen == old(gen)
      ensures Abstract() == AfterWrite(old(Abstract())).(due := false)
    {
      hide Ours, SentinelFor;
      card[slot] := Carries(SentinelFor(gen), sec);
      OursWritten(old(card[..]), slot, SentinelFor(gen), sec);
      assert card[..] == old(card[..])[slot := Carries(SentinelFor(gen), sec)];
      log := log + [next];
      next := next + 1;
      slot := slot + 1;
      if slot >= card.Length {
        slot := 0;
        wraps := wraps + 1;
      }
      since := since + 1;
    }

    /** Writes the sector `sec`, which is known by its place in the history. */
    method RingWrite(sec: nat, placed: bool, written: bool, synced: bool, durable: bool) returns (ok: bool)
      requires Valid() && sec == |log| && (written && synced ==> durable) && (durable ==> written)
      modifies this, card
      ensures Valid() && card == old(card) && gen == old(gen)
      ensures !placed ==> !ok && Abstract() == old(Abstract())
      ensures placed ==>
        var w := AfterWrite(old(Abstract()));
        Abstract() == (if w.due then AfterFlush(w, durable, written) else w) && ok == (!w.due || (written && synced))
    {
      hide Ours, SentinelFor;
      if !placed {
        return false;
      }
      Put(sec);
      if since < HDR_SYNC_FRAMES {
        return true;
      }
      ok := FlushPreamble(written, synced, durable);
    }

    /** Boot, from power-on values; the outcome of rewriting the hint is discarded.
        A header of this generation resumes the ring; otherwise it starts over,
        with nothing of its own on the card if no slot carries its sentinel. */
    method BootInit(found: Found, written: bool, synced: bool, durable: bool)
      requires Valid() && (written && synced ==> durable) && (durable ==> written)
      modifies this
      ensures Valid() && card == old(card) && card[..] == old(card[..])
      ensures found.Resumable? ==> gen == old(hintGen)
      ensures found.Resumable? && old(hintGen) == old(gen) ==> Abstract() == AfterReboot(old(Abstract()), durable)
      ensures !found.Resumable? ==> gen == StartOver(found)
      ensures !found.Resumable? && durable && Foreign(card[..], SentinelFor(gen)) ==> Abstract() == Created(card.Length)
    {
      hide Ours, Foreign, SentinelFor, StartOver;
      slot, next, wraps, gen, since := 0, 1, 0, 0, 0;
      if found.Resumable? {
        slot := hintSlot;
        next := hintNext + SEQ_RESUME_MARGIN;
        wraps := hintWraps;
        gen := hintGen;
        cuts := cuts + [|log|];
      } else {
        log, cuts := [], [];
        gen := PickGeneration(found);
      }
      if !found.Resumable? && Foreign(card[..], SentinelFor(gen)) {
        ForeignIsBlank(card[..], SentinelFor(gen));
      }
      var _ := FlushPreamble(written, synced, durable);
    }
  }

  lemma OursWritten(card: seq<CardSlot>, i: nat, sentinel: byte, k: nat)
    requires i < |card|
    ensures Ours(card[i := Carries(sentinel, k)], sentinel) == Ours(card, sentinel)[i := Holds(k)]
  {}
}
