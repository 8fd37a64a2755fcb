/** The sample times of a recording: 32-bit cycle stamps that wrap, accumulated
    over the blocks of one stream. */
module Timebase {
  import opened Bytes

  datatype Block = Block(first: u32, last: u32, count: nat)

  /** The wrap-safe difference of two stamps. */
  function Delta(a: u32, b: u32): u32 {
    (a - b) % TWO32
  }

  /** The interval between the samples of a block, if it has two or more. */
  datatype Interval = Unmeasured | Measured(cycles: nat)

  datatype Clock = Clock(elapsed: nat, seen: bool, prevLast: u32, interval: Interval, breaks: nat, times: seq<nat>)

  const ZERO := Clock(0, false, 0, Unmeasured, 0, [])

  /** More than four sample intervals since the last block: sectors are missing. */
  predicate Breaks(c: Clock, step: nat) {
    c.interval.Measured? && c.interval.cycles > 0 && step > 4 * c.interval.cycles
  }

  /** The time at which block `b` starts. */
  function StartOf(c: Clock, b: Block): nat {
    if !c.seen then c.elapsed
    else
      var step := Delta(b.first, c.prevLast);
      c.elapsed + (if Breaks(c, step) then c.interval.cycles else step)
  }

  /** The offset of record `i` among `n` over a span. */
  function Offset(span: nat, i: nat, n: nat): nat {
    span * i / (if n > 2 then n - 1 else 1)
  }

  function BlockTimes(start: nat, span: nat, n: nat): seq<nat> {
    seq(n, i requires 0 <= i < n => start + Offset(span, i, n))
  }

  function Advance(c: Clock, b: Block): Clock {
    var start, span := StartOf(c, b), Delta(b.last, b.first);
    Clock(start + span, true, b.last,
          if b.count > 1 then Measured(span / (b.count - 1)) else c.interval,
          c.breaks + (if c.seen && Breaks(c, Delta(b.first, c.prevLast)) then 1 else 0),
          c.times + BlockTimes(start, span, b.count))
  }

  function Accumulate(blocks: seq<Block>): Clock {
    if |blocks| == 0 then ZERO else Advance(Accumulate(blocks[..|blocks| - 1]), blocks[|blocks| - 1])
  }

  // ----- times never go back

  ghost predicate Ordered(t: seq<nat>) {
    forall i, j :: 0 <= i < j < |t| ==> t[i] <= t[j]
  }

  lemma {:induction false} Product(a: int, b: int, d: nat)
    ensures a <= b ==> a * d <= b * d
    ensures a < b ==> a * d + d <= b * d
    decreases b - a
  {
    if a < b {
      Product(a, b - 1, d);
      assert b * d == (b - 1) * d + d;
    }
  }

  lemma DivMonotone(a: nat, b: nat, d: nat)
    requires d > 0 && a <= b
    ensures a / d <= b / d
  {
    var p, q := a / d, b / d;
    var u, v := p * d, q * d;
    assert a == u + a % d && b == v + b % d;
    Product(q, p, d);
  }

  lemma Cancel(span: nat, d: nat)
    requires d > 0
    ensures span * d / d == span
  {
    var m := span * d;
    var q := m / d;
    assert m == q * d + m % d;
    Product(q, span, d);
    Product(span, q, d);
  }

  lemma OffsetOrdered(span: nat, i: nat, j: nat, n: nat)
    requires i <= j < n
    ensures Offset(span, i, n) <= Offset(span, j, n) <= span
  {
    var d := if n > 2 then n - 1 else 1;
    var a, b, c := span * i, span * j, span * d;
    Product(i, j, span);
    Product(j, d, span);
    assert a <= b <= c;
    DivMonotone(a, b, d);
    DivMonotone(b, c, d);
    Cancel(span, d);
  }

  /** Record `i` of `n` is dated at that share of the span, rounded down. */
  lemma OffsetIsFloor(span: nat, i: nat, n: nat)
    requires i < n && n > 1
    ensures Share(Offset(span, i, n), span, i, n)
  {
    var d, m := n - 1, span * i;
    var q := m / d;
    assert m == q * d + m % d;
    assert (q + 1) * d == q * d + d;
  }

  lemma BlockOrdered(start: nat, span: nat, n: nat)
    ensures Ordered(BlockTimes(start, span, n))
    ensures forall t :: t in BlockTimes(start, span, n) ==> start <= t <= start + span
  {
    hide Offset;
    forall i, j | 0 <= i <= j < n ensures Offset(span, i, n) <= Offset(span, j, n) <= span {
      OffsetOrdered(span, i, j, n);
    }
  }

  /** Whatever the stamps, the times come out in order and within what has
      elapsed. */
  lemma {:induction false} TimesOrdered(blocks: seq<Block>)
    ensures var c := Accumulate(blocks); Ordered(c.times) && forall t :: t in c.times ==> t <= c.elapsed
  {
    if |blocks| > 0 {
      var n := |blocks| - 1;
      TimesOrdered(blocks[..n]);
      var c, b := Accumulate(blocks[..n]), blocks[n];
      hide Accumulate, BlockTimes, Delta;
      BlockOrdered(StartOf(c, b), Delta(b.last, b.first), b.count);
      var more := BlockTimes(StartOf(c, b), Delta(b.last, b.first), b.count);
      Joined(c.times, more, c.elapsed);
    }
  }

  lemma Joined(s: seq<nat>, t: seq<nat>, m: nat)
    requires Ordered(s) && Ordered(t) && (forall x :: x in s ==> x <= m) && (forall y :: y in t ==> m <= y)
    ensures Ordered(s + t)
  {
    forall i, j | 0 <= i < j < |s + t| ensures (s + t)[i] <= (s + t)[j] {
      if i < |s| {
        assert s[i] in s;
      }
      if j >= |s| {
        assert t[j - |s|] in t;
      }
    }
  }

  // ----- and are exact across rollovers

  /** The true, unwrapped, cycle counts of a block. */
  datatype Span = Span(first: nat, last: nat)

  /** The stamps are the true counts modulo the counter's width, and no interval
      is as long as a whole rollover. */
  ghost predicate Stamps(blocks: seq<Block>, truth: seq<Span>) {
    && |blocks| == |truth|
    && (forall i :: 0 <= i < |blocks| ==>
          blocks[i].first == truth[i].first % TWO32 && blocks[i].last == truth[i].last % TWO32 &&
          truth[i].first <= truth[i].last < truth[i].first + TWO32)
    && (forall i :: 0 <= i < |truth| - 1 ==> Follows(truth, i))
  }

  ghost predicate Follows(truth: seq<Span>, i: nat)
    requires i + 1 < |truth|
  {
    truth[i].last <= truth[i + 1].first < truth[i].last + TWO32
  }

  lemma DeltaTrue(a: nat, b: nat)
    requires b <= a < b + TWO32
    ensures Delta(a % TWO32, b % TWO32) == a - b
  {}

  /** The sample interval, rounded down, of the last block before `n` with two
      records or more. */
  ghost function TrueInterval(blocks: seq<Block>, truth: seq<Span>, n: nat): Interval
    requires Stamps(blocks, truth) && n <= |blocks|
  {
    if n == 0 then Unmeasured
    else if blocks[n - 1].count > 1
    then Measured((truth[n - 1].last - truth[n - 1].first) / (blocks[n - 1].count - 1))
    else TrueInterval(blocks, truth, n - 1)
  }

  /** The gap before block `n` is more than four sample intervals. */
  ghost predicate Broken(blocks: seq<Block>, truth: seq<Span>, n: nat)
    requires Stamps(blocks, truth) && 0 < n < |blocks|
  {
    var iv := TrueInterval(blocks, truth, n);
    iv.Measured? && iv.cycles > 0 && truth[n].first - truth[n - 1].last > 4 * iv.cycles
  }

  /** What the breaks leave out: at each, the true gap beyond the one sample
      interval that is counted instead. */
  ghost function SkippedTo(blocks: seq<Block>, truth: seq<Span>, n: nat): nat
    requires Stamps(blocks, truth) && n <= |blocks|
    decreases n
  {
    if n <= 1 then 0
    else
      SkippedTo(blocks, truth, n - 1) +
      (if Broken(blocks, truth, n - 1)
       then truth[n - 1].first - truth[n - 2].last - TrueInterval(blocks, truth, n - 1).cycles
       else 0)
  }

  ghost function Skipped(blocks: seq<Block>, truth: seq<Span>): nat
    requires Stamps(blocks, truth)
  {
    SkippedTo(blocks, truth, |blocks|)
  }

  /** The blocks before which the gap is broken. */
  ghost function BrokenTo(blocks: seq<Block>, truth: seq<Span>, n: nat): nat
    requires Stamps(blocks, truth) && n <= |blocks|
    decreases n
  {
    if n <= 1 then 0 else BrokenTo(blocks, truth, n - 1) + (if Broken(blocks, truth, n - 1) then 1 else 0)
  }

  /** The clock after the first `n` blocks. */
  ghost predicate ClockTrue(c: Clock, blocks: seq<Block>, truth: seq<Span>, n: nat)
    requires Stamps(blocks, truth) && 0 < n <= |blocks|
  {
    && c.seen && c.prevLast == blocks[n - 1].last && c.interval == TrueInterval(blocks, truth, n)
    && c.elapsed + SkippedTo(blocks, truth, n) == truth[n - 1].last - truth[0].first
    && c.breaks == BrokenTo(blocks, truth, n)
  }

  lemma FirstClock(blocks: seq<Block>, truth: seq<Span>)
    requires Stamps(blocks, truth) && |blocks| > 0
    ensures ClockTrue(Advance(ZERO, blocks[0]), blocks, truth, 1)
  {
    DeltaTrue(truth[0].last, truth[0].first);
    assert TrueInterval(blocks, truth, 0) == Unmeasured;
    hide BlockTimes;
  }

  lemma NextClock(c: Clock, blocks: seq<Block>, truth: seq<Span>, n: nat)
    requires Stamps(blocks, truth) && 0 < n < |blocks| && ClockTrue(c, blocks, truth, n)
    ensures ClockTrue(Advance(c, blocks[n]), blocks, truth, n + 1)
  {
    assert Follows(truth, n - 1);
    DeltaTrue(truth[n].last, truth[n].first);
    DeltaTrue(truth[n].first, truth[n - 1].last);
    hide BlockTimes, Delta;
  }

  lemma {:induction false} ClockAfter(blocks: seq<Block>, truth: seq<Span>, n: nat)
    requires Stamps(blocks, truth) && 0 < n <= |blocks|
    ensures ClockTrue(Accumulate(blocks[..n]), blocks, truth, n)
  {
    hide ClockTrue, Advance, Stamps;
    assert blocks[..n][..n - 1] == blocks[..n - 1];
    if n == 1 {
      assert blocks[..1][..0] == [];
      FirstClock(blocks, truth);
    } else {
      ClockAfter(blocks, truth, n - 1);
      NextClock(Accumulate(blocks[..n - 1]), blocks, truth, n - 1);
    }
  }

  /** What has elapsed is the true time since the first record, through any
      number of counter rollovers, less what the breaks leave out; and the breaks
      counted are the gaps of more than four sample intervals. */
  lemma ElapsedExact(blocks: seq<Block>, truth: seq<Span>)
    requires Stamps(blocks, truth) && |blocks| > 0
    ensures Accumulate(blocks).elapsed + Skipped(blocks, truth) == truth[|truth| - 1].last - truth[0].first
    ensures Accumulate(blocks).breaks == BrokenTo(blocks, truth, |blocks|)
  {
    hide Accumulate;
    assert blocks[..|blocks|] == blocks;
    ClockAfter(blocks, truth, |blocks|);
  }

  /** So every record of a block is dated exactly, up to what was left out before
      it: the first and the last as stamped, and those between at their share of
      the span, rounded down. */
  lemma RecordsExact(blocks: seq<Block>, truth: seq<Span>, i: nat)
    requires Stamps(blocks, truth) && |blocks| > 0 && i < blocks[|blocks| - 1].count && blocks[|blocks| - 1].count > 1
    ensures var c, n := Accumulate(blocks), |blocks| - 1;
      var at := |c.times| - blocks[n].count + i; var origin := truth[0].first + Skipped(blocks, truth);
      0 <= at < |c.times| &&
        Share(c.times[at] - (truth[n].first - origin), truth[n].last - truth[n].first, i, blocks[n].count)
  {
    var n := |blocks| - 1;
    var c0, b := Accumulate(blocks[..n]), blocks[n];
    ElapsedExact(blocks, truth);
    DeltaTrue(truth[n].last, truth[n].first);
    var start, span := StartOf(c0, b), Delta(b.last, b.first);
    assert Accumulate(blocks) == Advance(c0, b);
    hide Accumulate, Skipped, StartOf, Delta, Offset;
    var m := BlockTimes(start, span, b.count);
    assert Accumulate(blocks).times == c0.times + m && m[i] == start + Offset(span, i, b.count);
    OffsetIsFloor(span, i, b.count);
  }

  /** `t` is `span` times `i / (n - 1)`, rounded down. */
  ghost predicate Share(t: int, span: int, i: nat, n: nat) {
    t * (n - 1) <= span * i < (t + 1) * (n - 1)
  }

  // ----- the loop

  method AppendBlock(times: seq<nat>, start: nat, span: nat, n: nat) returns (r: seq<nat>)
    ensures r == times + BlockTimes(start, span, n)
  {
    hide Offset;
    r := times;
    for i := 0 to n
      invariant r == times + BlockTimes(start, span, n)[..i]
    {
      r := r + [start + Offset(span, i, n)];
    }
  }

  method Samples(blocks: seq<Block>) returns (times: seq<nat>, gaps: nat)
    ensures times == Accumulate(blocks).times && gaps == Accumulate(blocks).breaks
  {
    var elapsed: nat, seen, prevLast: u32, interval := 0, false, 0, Unmeasured;
    times, gaps := [], 0;
    for k := 0 to |blocks|
      invariant Clock(elapsed, seen, prevLast, interval, gaps, times) == Accumulate(blocks[..k])
    {
      assert blocks[..k + 1][..k] == blocks[..k];
      ghost var c := Clock(elapsed, seen, prevLast, interval, gaps, times);
      hide Accumulate, BlockTimes;
      var b := blocks[k];
      if seen {
        var step := Delta(b.first, prevLast);
        if interval.Measured? && interval.cycles > 0 && step > 4 * interval.cycles {
          gaps := gaps + 1;
          step := interval.cycles;
        }
        elapsed := elapsed + step;
      }
      var start, span := elapsed, Delta(b.last, b.first);
      times := AppendBlock(times, start, span, b.count);
      elapsed := start + span;
      prevLast, seen := b.last, true;
      if b.count > 1 {
        interval := Measured(span / (b.count - 1));
      }
      assert Clock(elapsed, seen, prevLast, interval, gaps, times) == Advance(c, b);
    }
    assert blocks[..|blocks|] == blocks;
  }
}
