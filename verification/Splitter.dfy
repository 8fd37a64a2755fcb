/** Incremental frame splitting.  A splitter decides, from the bytes it holds,
    whether to skip one, to take a frame off the front, or to wait for more. */
module Splitter {
  import opened Bytes

  datatype Decision = Wait | Skip | Take(len: nat)

  type Rule = seq<byte> -> Decision

  datatype Parsed = Parsed(frames: seq<seq<byte>>, rest: seq<byte>)

  /** A rule never reaches past what it holds, and always makes progress. */
  ghost predicate Sound(rule: Rule) {
    forall s: seq<byte> :: match rule(s) case Wait => true case Skip => |s| > 0 case Take(n) => 0 < n <= |s|
  }

  /** Once made, a decision does not change when more bytes arrive. */
  ghost predicate Stable(rule: Rule) {
    forall s: seq<byte>, t: seq<byte> :: rule(s) != Wait ==> rule(s + t) == rule(s)
  }

  /** One parse after another: the frames of both, and what the second left. */
  function Then(a: Parsed, b: Parsed): (c: Parsed)
    ensures c.rest == b.rest
  {
    Parsed(a.frames + b.frames, b.rest)
  }

  /** Applies the rule until it waits. */
  function Split(rule: Rule, s: seq<byte>): Parsed
    requires Sound(rule)
    decreases |s|
  {
    match rule(s)
    case Wait => Parsed([], s)
    case Skip => Split(rule, s[1..])
    case Take(n) => Then(Parsed([s[..n]], []), Split(rule, s[n..]))
  }

  lemma {:induction false} RestWaits(rule: Rule, s: seq<byte>)
    requires Sound(rule)
    ensures rule(Split(rule, s).rest) == Wait
    decreases |s|
  {
    match rule(s)
    case Wait =>
    case Skip => RestWaits(rule, s[1..]);
    case Take(n) => RestWaits(rule, s[n..]);
  }

  lemma ThenNothing(s: seq<byte>, a: Parsed)
    ensures Then(Parsed([], s), a) == a
  {}

  lemma ThenAssoc(a: Parsed, b: Parsed, c: Parsed)
    ensures Then(Then(a, b), c) == Then(a, Then(b, c))
  {}

  lemma SoundAt(rule: Rule, s: seq<byte>)
    requires Sound(rule)
    ensures match rule(s) case Wait => true case Skip => |s| > 0 case Take(n) => 0 < n <= |s|
  {}

  lemma KeepsDecision(rule: Rule, s: seq<byte>, t: seq<byte>)
    requires Stable(rule) && rule(s) != Wait
    ensures rule(s + t) == rule(s)
  {}

  /** Splitting what is held and then splitting the rest with what comes next is
      splitting the whole. */
  lemma {:induction false} SplitAppend(rule: Rule, s: seq<byte>, t: seq<byte>)
    requires Sound(rule) && Stable(rule)
    ensures Split(rule, s + t) == Then(Split(rule, s), Split(rule, Split(rule, s).rest + t))
    decreases |s|
  {
    hide Sound, Stable, Then;
    SoundAt(rule, s);
    match rule(s)
    case Wait =>
      ThenNothing(s, Split(rule, s + t));
    case Skip =>
      KeepsDecision(rule, s, t);
      SplitAppend(rule, s[1..], t);
      assert (s + t)[1..] == s[1..] + t;
    case Take(n) =>
      KeepsDecision(rule, s, t);
      SplitAppend(rule, s[n..], t);
      assert (s + t)[n..] == s[n..] + t && (s + t)[..n] == s[..n];
      var a := Split(rule, s[n..]);
      ThenAssoc(Parsed([s[..n]], []), a, Split(rule, a.rest + t));
  }

  /** A scan of `s` stands at `i` having taken `frames`. */
  ghost predicate At(rule: Rule, s: seq<byte>, i: nat, frames: seq<seq<byte>>)
    requires Sound(rule) && i <= |s|
  {
    Split(rule, s) == Then(Parsed(frames, []), Split(rule, s[i..]))
  }

  lemma AtStart(rule: Rule, s: seq<byte>)
    requires Sound(rule)
    ensures At(rule, s, 0, [])
  {}

  /** Each decision moves the scan on; when it waits, the rest is what remains. */
  lemma AtSkip(rule: Rule, s: seq<byte>, i: nat, frames: seq<seq<byte>>)
    requires Sound(rule) && i < |s| && At(rule, s, i, frames) && rule(s[i..]) == Skip
    ensures At(rule, s, i + 1, frames)
  {}

  lemma AtWait(rule: Rule, s: seq<byte>, i: nat, frames: seq<seq<byte>>)
    requires Sound(rule) && i <= |s| && At(rule, s, i, frames) && rule(s[i..]) == Wait
    ensures Split(rule, s) == Parsed(frames, s[i..])
  {}

  lemma AtTake(rule: Rule, s: seq<byte>, i: nat, n: nat, frames: seq<seq<byte>>)
    requires Sound(rule) && i <= |s| && At(rule, s, i, frames) && rule(s[i..]) == Take(n)
    ensures i + n <= |s| && At(rule, s, i + n, frames + [s[i..i + n]])
  {
    hide Sound, Then;
    SoundAt(rule, s[i..]);
    var f := s[i..i + n];
    assert s[i..][n..] == s[i + n..] && s[i..][..n] == f;
    assert Split(rule, s[i..]) == Then(Parsed([f], []), Split(rule, s[i + n..]));
    hide Split;
    ThenAssoc(Parsed(frames, []), Parsed([f], []), Split(rule, s[i + n..]));
    ThenFrames(frames, [f], []);
  }

  lemma ThenFrames(a: seq<seq<byte>>, b: seq<seq<byte>>, rest: seq<byte>)
    ensures Then(Parsed(a, []), Parsed(b, rest)) == Parsed(a + b, rest)
    ensures a + [] == a
  {}

  function Flat(chunks: seq<seq<byte>>): seq<byte> {
    if |chunks| == 0 then [] else Flat(chunks[..|chunks| - 1]) + chunks[|chunks| - 1]
  }

  /** Feeding the chunks one after another. */
  function Feed(rule: Rule, chunks: seq<seq<byte>>): Parsed
    requires Sound(rule)
    decreases |chunks|
  {
    if |chunks| == 0 then Split(rule, [])
    else
      var a := Feed(rule, chunks[..|chunks| - 1]);
      Then(a, Split(rule, a.rest + chunks[|chunks| - 1]))
  }

  /** However a stream is cut into chunks, the frames and the leftover are those
      of the whole stream. */
  lemma {:induction false} ChunkingIrrelevant(rule: Rule, chunks: seq<seq<byte>>)
    requires Sound(rule) && Stable(rule)
    ensures Feed(rule, chunks) == Split(rule, Flat(chunks))
    decreases |chunks|
  {
    if |chunks| > 0 {
      var n := |chunks| - 1;
      ChunkingIrrelevant(rule, chunks[..n]);
      SplitAppend(rule, Flat(chunks[..n]), chunks[n]);
    }
  }

  /** Position `i` lies inside a frame that was taken. */
  ghost predicate Covered(rule: Rule, s: seq<byte>, i: nat)
    requires Sound(rule)
    decreases |s|
  {
    match rule(s)
    case Wait => false
    case Skip => i > 0 && Covered(rule, s[1..], i - 1)
    case Take(n) => i < n || Covered(rule, s[n..], i - n)
  }

  /** Nothing acceptable is passed over: behind the leftover, every position
      where a frame could be taken is inside a frame that was taken. */
  lemma {:induction false} NothingMissed(rule: Rule, s: seq<byte>, i: nat)
    requires Sound(rule) && i + |Split(rule, s).rest| < |s|
    requires rule(s[i..]).Take?
    ensures Covered(rule, s, i)
    decreases |s|
  {
    match rule(s)
    case Wait =>
    case Skip =>
      assert s[0..] == s;
      NothingMissed(rule, s[1..], i - 1);
    case Take(n) =>
      if i >= n {
        assert s[n..][i - n..] == s[i..];
        NothingMissed(rule, s[n..], i - n);
      }
  }

  // ----- streams of whole frames

  /** Frames `fs` with the gaps around them: gaps[0] fs[0] gaps[1] ... */
  function Woven(fs: seq<seq<byte>>, gaps: seq<seq<byte>>): seq<byte>
    requires |gaps| == |fs| + 1
    decreases |fs|
  {
    if |fs| == 0 then gaps[0] else gaps[0] + (fs[0] + Woven(fs[1..], gaps[1..]))
  }

  /** Every byte of the gap is skipped, whatever follows. */
  ghost predicate Ignored(rule: Rule, g: seq<byte>) {
    forall i, t: seq<byte> :: 0 <= i < |g| ==> rule(g[i..] + t) == Skip
  }

  lemma {:induction false} SkipsGap(rule: Rule, g: seq<byte>, t: seq<byte>)
    requires Sound(rule) && Ignored(rule, g)
    ensures Split(rule, g + t) == Split(rule, t)
    decreases |g|
  {
    if |g| == 0 {
      assert g + t == t;
    } else {
      assert g[0..] == g && rule(g[0..] + t) == Skip;
      assert (g + t)[1..] == g[1..] + t;
      forall i, u: seq<byte> | 0 <= i < |g[1..]| ensures rule(g[1..][i..] + u) == Skip {
        assert g[1..][i..] == g[i + 1..];
      }
      SkipsGap(rule, g[1..], t);
    }
  }

  /** Acceptable frames separated by ignorable gaps come out exactly, in order,
      with nothing left over. */
  lemma {:induction false} WholeFramesComeOut(rule: Rule, fs: seq<seq<byte>>, gaps: seq<seq<byte>>)
    requires Sound(rule) && Stable(rule) && rule([]) == Wait
    requires |gaps| == |fs| + 1
    requires forall i :: 0 <= i < |gaps| ==> Ignored(rule, gaps[i])
    requires forall i :: 0 <= i < |fs| ==> rule(fs[i]) == Take(|fs[i]|)
    ensures Split(rule, Woven(fs, gaps)) == Parsed(fs, [])
    decreases |fs|
  {
    if |fs| == 0 {
      SkipsGap(rule, gaps[0], []);
      assert gaps[0] + [] == gaps[0];
    } else {
      var tail := Woven(fs[1..], gaps[1..]);
      WholeFramesComeOut(rule, fs[1..], gaps[1..]);
      SkipsGap(rule, gaps[0], fs[0] + tail);
      assert rule(fs[0]) == Take(|fs[0]|);
      assert rule(fs[0] + tail) == Take(|fs[0]|);
      assert (fs[0] + tail)[..|fs[0]|] == fs[0] && (fs[0] + tail)[|fs[0]|..] == tail;
      assert fs == [fs[0]] + fs[1..];
    }
  }
}

/** The two NavLink splitters: the telemetry tools' one, which checks each frame
    with the codec, and the bench runner's, which does not. */
module NavLinkFrames {
  import opened Bytes
  import opened Splitter

  const SYNC: byte := 0x56
  const HDR_LEN := 10
  const CRC_LEN := 2
  const MAX_FRAME := HDR_LEN + 0xFF + CRC_LEN

  /** The length a frame header announces. */
  function Announced(s: seq<byte>): nat
    requires |s| >= 3
  {
    HDR_LEN + s[2] + CRC_LEN
  }

  /** Resynchronises one byte on when the codec rejects the frame. */
  function Check(ok: seq<byte> -> bool, s: seq<byte>): Decision {
    if |s| == 0 then Wait
    else if s[0] != SYNC then Skip
    else if |s| < HDR_LEN + CRC_LEN || |s| < Announced(s) then Wait
    else if ok(s[..Announced(s)]) then Take(Announced(s)) else Skip
  }

  /** Takes whatever the header announces. */
  function Grab(s: seq<byte>): Decision {
    if |s| == 0 then Wait
    else if s[0] != SYNC then Skip
    else if |s| < HDR_LEN || |s| < Announced(s) then Wait
    else Take(Announced(s))
  }

  function Checked(ok: seq<byte> -> bool): Rule {
    (s: seq<byte>) => Check(ok, s)
  }

  function Unchecked(): Rule {
    (s: seq<byte>) => Grab(s)
  }

  lemma CheckedStable(ok: seq<byte> -> bool)
    ensures Sound(Checked(ok)) && Stable(Checked(ok)) && Checked(ok)([]) == Wait
  {
    forall s: seq<byte>, t: seq<byte> | Check(ok, s) != Wait ensures Check(ok, s + t) == Check(ok, s) {
      if |s| >= HDR_LEN + CRC_LEN && |s| >= Announced(s) {
        assert (s + t)[..Announced(s)] == s[..Announced(s)];
      }
    }
  }

  lemma UncheckedStable()
    ensures Sound(Unchecked()) && Stable(Unchecked()) && Unchecked()([]) == Wait
  {}

  /** What the rules decide at position `i` of a longer buffer. */
  lemma Decides(ok: seq<byte> -> bool, s: seq<byte>, i: nat)
    requires i < |s| && s[i] != SYNC
    ensures Checked(ok)(s[i..]) == Unchecked()(s[i..]) == Skip
  {}

  lemma DecidesShort(ok: seq<byte> -> bool, s: seq<byte>, i: nat)
    requires i <= |s|
    requires i < |s| ==> s[i] == SYNC
    ensures i + HDR_LEN + CRC_LEN > |s| || i + Announced(s[i..]) > |s| ==> Checked(ok)(s[i..]) == Wait
    ensures i + HDR_LEN > |s| || i + Announced(s[i..]) > |s| ==> Unchecked()(s[i..]) == Wait
  {}

  lemma DecidesFull(ok: seq<byte> -> bool, s: seq<byte>, i: nat, f: seq<byte>)
    requires i + HDR_LEN + CRC_LEN <= |s| && s[i] == SYNC && i + HDR_LEN + s[i + 2] + CRC_LEN <= |s|
    requires f == s[i..i + HDR_LEN + s[i + 2] + CRC_LEN]
    ensures Whole(f) && Checked(ok)(s[i..]) == (if ok(f) then Take(|f|) else Skip) && Unchecked()(s[i..]) == Take(|f|)
  {
    assert s[i..][..Announced(s[i..])] == f;
  }

  /** The three moves of the checking scan. */
  lemma PassOver(ok: seq<byte> -> bool, s: seq<byte>, i: nat, frames: seq<seq<byte>>)
    requires Sound(Checked(ok)) && i < |s| && s[i] != SYNC && At(Checked(ok), s, i, frames)
    ensures At(Checked(ok), s, i + 1, frames)
  {
    hide Sound, At;
    Decides(ok, s, i);
    AtSkip(Checked(ok), s, i, frames);
  }

  lemma Judge(ok: seq<byte> -> bool, s: seq<byte>, i: nat, f: seq<byte>, frames: seq<seq<byte>>)
    requires Sound(Checked(ok)) && i + HDR_LEN + CRC_LEN <= |s| && s[i] == SYNC && At(Checked(ok), s, i, frames)
    requires i + HDR_LEN + s[i + 2] + CRC_LEN <= |s| && f == s[i..i + HDR_LEN + s[i + 2] + CRC_LEN]
    ensures if ok(f) then At(Checked(ok), s, i + |f|, frames + [f]) else At(Checked(ok), s, i + 1, frames)
  {
    hide Sound, At;
    DecidesFull(ok, s, i, f);
    if ok(f) {
      AtTake(Checked(ok), s, i, |f|, frames);
    } else {
      AtSkip(Checked(ok), s, i, frames);
    }
  }

  lemma Leave(ok: seq<byte> -> bool, s: seq<byte>, i: nat, frames: seq<seq<byte>>)
    requires Sound(Checked(ok)) && i <= |s| && At(Checked(ok), s, i, frames)
    requires i == |s| || (s[i] == SYNC && (i + HDR_LEN + CRC_LEN > |s| || i + HDR_LEN + s[i + 2] + CRC_LEN > |s|))
    ensures Split(Checked(ok), s) == Parsed(frames, s[i..])
  {
    hide Sound, At;
    DecidesShort(ok, s, i);
    AtWait(Checked(ok), s, i, frames);
  }

  /** Everything before the first sync byte is skipped at once. */
  lemma ToSync(s: seq<byte>, i: nat)
    requires Sound(Unchecked()) && i <= |s| && SYNC !in s[..i]
    ensures Split(Unchecked(), s) == Split(Unchecked(), s[i..])
  {
    hide Sound;
    GapIgnored(_ => true, s[..i]);
    SkipsGap(Unchecked(), s[..i], s[i..]);
    assert s[..i] + s[i..] == s;
  }

  lemma NextWaits(s: seq<byte>, i: nat)
    requires Sound(Unchecked()) && i <= |s| && SYNC !in s[..i]
    requires i == |s| || (s[i] == SYNC && (|s| - i < HDR_LEN || |s| - i < HDR_LEN + s[i + 2] + CRC_LEN))
    ensures Split(Unchecked(), s) == Parsed([], s[i..])
  {
    hide Sound;
    ToSync(s, i);
    DecidesShort(_ => true, s, i);
  }

  lemma NextTakes(s: seq<byte>, i: nat, f: seq<byte>)
    requires Sound(Unchecked()) && i + HDR_LEN + CRC_LEN <= |s| && SYNC !in s[..i] && s[i] == SYNC
    requires i + HDR_LEN + s[i + 2] + CRC_LEN <= |s| && f == s[i..i + HDR_LEN + s[i + 2] + CRC_LEN]
    ensures Whole(f) && Split(Unchecked(), s) == Then(Parsed([f], []), Split(Unchecked(), s[i + |f|..]))
  {
    hide Sound;
    ToSync(s, i);
    DecidesFull(_ => true, s, i, f);
    assert s[i..][..|f|] == f && s[i..][|f|..] == s[i + |f|..];
  }

  /** What is left over is always shorter than one maximal frame. */
  lemma LeftoverBounded(ok: seq<byte> -> bool, s: seq<byte>)
    ensures Sound(Checked(ok)) && |Split(Checked(ok), s).rest| < MAX_FRAME
    ensures Sound(Unchecked()) && |Split(Unchecked(), s).rest| < MAX_FRAME
  {
    CheckedStable(ok);
    UncheckedStable();
    RestWaits(Checked(ok), s);
    RestWaits(Unchecked(), s);
  }

  /** Nothing is ever left over but the beginning of a frame. */
  lemma LeftoverStarts(ok: seq<byte> -> bool, s: seq<byte>)
    ensures Sound(Checked(ok)) && Sound(Unchecked())
    ensures var r := Split(Checked(ok), s).rest; r == [] || r[0] == SYNC
    ensures var r := Split(Unchecked(), s).rest; r == [] || r[0] == SYNC
  {
    CheckedStable(ok);
    UncheckedStable();
    RestWaits(Checked(ok), s);
    RestWaits(Unchecked(), s);
  }

  /** A frame of the announced length. */
  predicate Whole(f: seq<byte>) {
    |f| >= HDR_LEN + CRC_LEN && f[0] == SYNC && |f| == Announced(f)
  }

  lemma GapIgnored(ok: seq<byte> -> bool, g: seq<byte>)
    requires SYNC !in g
    ensures Ignored(Checked(ok), g) && Ignored(Unchecked(), g)
  {}

  /** On a clean link the two splitters agree: valid frames between gaps free of
      sync bytes come out of both exactly as sent. */
  lemma CleanStream(ok: seq<byte> -> bool, fs: seq<seq<byte>>, gaps: seq<seq<byte>>)
    requires |gaps| == |fs| + 1 && forall i :: 0 <= i < |gaps| ==> SYNC !in gaps[i]
    requires forall i :: 0 <= i < |fs| ==> Whole(fs[i]) && ok(fs[i])
    ensures Sound(Checked(ok)) && Split(Checked(ok), Woven(fs, gaps)) == Parsed(fs, [])
    ensures Sound(Unchecked()) && Split(Unchecked(), Woven(fs, gaps)) == Parsed(fs, [])
  {
    CheckedStable(ok);
    UncheckedStable();
    forall i | 0 <= i < |gaps| ensures Ignored(Checked(ok), gaps[i]) && Ignored(Unchecked(), gaps[i]) {
      GapIgnored(ok, gaps[i]);
    }
    forall i | 0 <= i < |fs| ensures Checked(ok)(fs[i]) == Take(|fs[i]|) && Unchecked()(fs[i]) == Take(|fs[i]|) {
      assert fs[i][..Announced(fs[i])] == fs[i];
    }
    WholeFramesComeOut(Checked(ok), fs, gaps);
    WholeFramesComeOut(Unchecked(), fs, gaps);
  }
}
