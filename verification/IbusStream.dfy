/** Whole byte streams through the iBUS receiver. */
module IbusStream {
  import opened Bytes
  import opened Ibus

  /** The packet in progress after a stream. */
  function After(p: seq<byte>, s: seq<byte>): (q: seq<byte>)
    requires InProgress(p)
    ensures InProgress(q)
    decreases |s|
  {
    if |s| == 0 then p
    else
      var q := After(p, s[..|s| - 1]);
      StepKeepsProgress(q, s[|s| - 1]);
      Step(q, s[|s| - 1])
  }

  /** Byte `k` of the stream completes a packet. */
  ghost predicate CompletesAt(p: seq<byte>, s: seq<byte>, k: nat)
    requires InProgress(p) && k < |s|
  {
    Accepts(After(p, s[..k]), s[k])
  }

  /** The packet in progress is always the tail of what has been received. */
  lemma {:induction false} ProgressIsTail(p: seq<byte>, s: seq<byte>)
    requires InProgress(p)
    ensures IsTail(After(p, s), p + s)
  {
    if |s| > 0 {
      var n := |s| - 1;
      ProgressIsTail(p, s[..n]);
      var q0 := After(p, s[..n]);
      assert p + s == (p + s[..n]) + [s[n]];
      TailStep(p + s[..n], q0, s[n]);
    }
  }

  ghost predicate IsTail(q: seq<byte>, t: seq<byte>) {
    |q| <= |t| && q == t[|t| - |q|..]
  }

  /** A byte extends the packet or drops it; either way it is a tail. */
  lemma TailStep(t: seq<byte>, q: seq<byte>, b: byte)
    requires InProgress(q) && IsTail(q, t)
    ensures IsTail(Step(q, b), t + [b])
  {
    StepExtends(q, b);
    hide Step, InProgress;
    assert IsTail(q + [b], t + [b]);
    assert IsTail([], t + [b]);
  }

  lemma StepExtends(q: seq<byte>, b: byte)
    requires |q| < PACKET_SIZE
    ensures Step(q, b) == q + [b] || Step(q, b) == []
  {
    hide Checksum;
  }

  lemma {:induction false} ProgressBounded(p: seq<byte>, s: seq<byte>)
    requires InProgress(p)
    ensures |After(p, s)| <= |p| + |s|
  {
    if |s| > 0 {
      ProgressBounded(p, s[..|s| - 1]);
    }
  }

  lemma {:induction false} AfterSplit(p: seq<byte>, s: seq<byte>, t: seq<byte>)
    requires InProgress(p)
    ensures After(p, s + t) == After(After(p, s), t)
    decreases |t|
  {
    if |t| == 0 {
      assert s + t == s;
    } else {
      var n := |t| - 1;
      AfterSplit(p, s, t[..n]);
      assert (s + t)[..|s + t| - 1] == s + t[..n];
    }
  }

  /** From power-on, a packet is accepted only when the last 32 bytes are one. */
  lemma AcceptedAreLast32(s: seq<byte>, k: nat)
    requires k < |s| && CompletesAt([], s, k)
    ensures k >= 31 && IsFrame(s[k - 31..k + 1]) && Decode(After([], s[..k])) == Decode(s[k - 31..k + 1])
    ensures MeansFrame(s[k - 31..k + 1], Decode(After([], s[..k])))
  {
    var p := After([], s[..k]);
    ProgressIsTail([], s[..k]);
    assert [] + s[..k] == s[..k];
    AcceptedIsFrame(p, s[k]);
    hide After, IsFrame, Decode, InProgress;
    TailThen(p, s, k);
    SameChannels(p, s[k - 31..k + 1]);
    FrameMeans(s[k - 31..k + 1]);
  }

  /** The bytes of a frame and the channels they stand for, spelled out. */
  ghost predicate MeansFrame(f: seq<byte>, c: seq<nat>) {
    && |f| == 32 && f[0] == 0x20 && f[1] == 0x40 && f[30] as int + 256 * f[31] as int == 0xFFFF - Sum(f[..30])
    && |c| == 14 && forall i :: 0 <= i < 14 ==> c[i] == (f[2 + 2 * i] as int + 256 * f[3 + 2 * i] as int) % 4096
  }

  /** A well-formed packet is exactly that. */
  lemma FrameMeans(f: seq<byte>)
    requires |f| == 32
    ensures IsFrame(f) <==> MeansFrame(f, Decode(f))
  {
    forall i | 0 <= i < 14 ensures Decode(f)[i] == (f[2 + 2 * i] as int + 256 * f[3 + 2 * i] as int) % 4096 {
      assert Decode(f)[i] == Channel(f, i);
    }
  }

  lemma TailThen(p: seq<byte>, s: seq<byte>, k: nat)
    requires k < |s| && |p| == 31 && IsTail(p, s[..k])
    ensures k >= 31 && p + [s[k]] == s[k - 31..k + 1] && p[..30] == s[k - 31..k + 1][..30]
  {
    var f := s[k - 31..k + 1];
    assert p == s[k - 31..k];
    assert f == p + [s[k]];
  }

  /** Accepted packets never share a byte. */
  lemma NoOverlap(p: seq<byte>, s: seq<byte>, k: nat, m: nat)
    requires InProgress(p) && k < m < |s| && CompletesAt(p, s, k) && CompletesAt(p, s, m)
    ensures m - k >= PACKET_SIZE
  {
    assert s[..k + 1][..k] == s[..k];
    assert After(p, s[..k + 1]) == [];
    var mid := s[k + 1..m];
    assert s[..m] == s[..k + 1] + mid;
    AfterSplit(p, s[..k + 1], mid);
    ProgressBounded([], mid);
  }

  /** From any state the receiver is waiting for a start byte again within 31 bytes. */
  lemma {:induction false} Recovers(p: seq<byte>, s: seq<byte>) returns (n: nat)
    requires InProgress(p) && |s| + |p| >= PACKET_SIZE
    ensures n <= |s| && n + |p| <= PACKET_SIZE && (|p| == 0 ==> n == 0) && After(p, s[..n]) == []
    decreases PACKET_SIZE - |p|
  {
    if |p| == 0 {
      n := 0;
    } else {
      var q := Step(p, s[0]);
      StepKeepsProgress(p, s[0]);
      assert s[..1] == [s[0]] && [s[0]][..0] == [];
      assert After(p, []) == p && After(p, [s[0]]) == q;
      if |q| == 0 {
        n := 1;
      } else {
        var m := Recovers(q, s[1..]);
        n := m + 1;
        AfterSplit(p, [s[0]], s[1..][..m]);
        assert s[..n] == [s[0]] + s[1..][..m];
      }
    }
  }

  // ----- encoded frames come back

  /** The packets of a stream, in order of completion. */
  function Packets(p: seq<byte>, s: seq<byte>): seq<seq<nat>>
    requires InProgress(p)
    decreases |s|
  {
    if |s| == 0 then []
    else
      var q := After(p, s[..|s| - 1]);
      Packets(p, s[..|s| - 1]) + (if Accepts(q, s[|s| - 1]) then [Decode(q)] else [])
  }

  lemma {:induction false} PacketsSplit(p: seq<byte>, s: seq<byte>, t: seq<byte>)
    requires InProgress(p)
    ensures Packets(p, s + t) == Packets(p, s) + Packets(After(p, s), t)
    decreases |t|
  {
    if |t| == 0 {
      assert s + t == s;
    } else {
      var n := |t| - 1;
      PacketsSplit(p, s, t[..n]);
      AfterSplit(p, s, t[..n]);
      assert (s + t)[..|s + t| - 1] == s + t[..n];
      assert (s + t)[|s + t| - 1] == t[n];
    }
  }

  /** What a transmitter sends for a set of channels. */
  function Payload(c: seq<nat>): (f: seq<byte>)
    requires |c| == CHANNELS && forall i :: 0 <= i < CHANNELS ==> c[i] < CHANNEL_RANGE
    ensures |f| == 30
  {
    seq(30, i requires 0 <= i < 30 =>
      if i == 0 then START_BYTE else if i == 1 then CMD_CHANNELS
      else if i % 2 == 0 then (c[(i - 2) / 2] % 256) as byte else (c[(i - 2) / 2] / 256) as byte)
  }

  ghost predicate ValidChannels(c: seq<nat>) {
    |c| == CHANNELS && forall i :: 0 <= i < CHANNELS ==> c[i] < CHANNEL_RANGE
  }

  function Encode(c: seq<nat>): (f: seq<byte>)
    requires ValidChannels(c)
    ensures |f| == PACKET_SIZE
  {
    var p := Payload(c);
    p + [(Checksum(p) % 256) as byte, (Checksum(p) / 256) as byte]
  }

  lemma PayloadChannels(c: seq<nat>)
    requires ValidChannels(c)
    ensures Decode(Payload(c)) == c
  {
    var p := Payload(c);
    hide Payload;
    forall i | 0 <= i < CHANNELS ensures Channel(p, i) == c[i] {
      PayloadPair(c, i);
    }
  }

  lemma PayloadPair(c: seq<nat>, i: nat)
    requires ValidChannels(c) && i < CHANNELS
    ensures var p := Payload(c); p[2 + i * 2] == c[i] % 256 && p[3 + i * 2] == c[i] / 256
  {
    assert (2 + i * 2) % 2 == 0 && (2 + i * 2 - 2) / 2 == i;
    assert (3 + i * 2) % 2 == 1 && (3 + i * 2 - 2) / 2 == i;
  }

  lemma SealedIsFrame(p: seq<byte>, lo: byte, hi: byte)
    requires |p| == 30 && p[0] == START_BYTE && p[1] == CMD_CHANNELS
    requires lo == Checksum(p) % 256 && hi == Checksum(p) / 256
    ensures IsFrame(p + [lo, hi]) && Decode(p + [lo, hi]) == Decode(p)
  {
    hide Decode, Sum;
    var f := p + [lo, hi];
    assert f[..30] == p && f[30] == lo && f[31] == hi;
    SumBound(p);
    SameChannels(p, f);
  }

  lemma EncodedIsFrame(c: seq<nat>)
    requires ValidChannels(c)
    ensures IsFrame(Encode(c)) && Decode(Encode(c)) == c
  {
    PayloadChannels(c);
    var p := Payload(c);
    assert p[0] == START_BYTE && p[1] == CMD_CHANNELS;
    hide Payload, Decode, Checksum, IsFrame;
    SealedIsFrame(p, Checksum(p) % 256, Checksum(p) / 256);
  }

  /** A well-formed packet fed to a waiting receiver stays in progress until its
      last byte. */
  lemma {:induction false} FramePrefix(f: seq<byte>, n: nat)
    requires IsFrame(f) && n <= 31
    ensures After([], f[..n]) == f[..n] && Packets([], f[..n]) == []
  {
    if n > 0 {
      FramePrefix(f, n - 1);
      assert f[..n][..n - 1] == f[..n - 1];
      assert f[..n] == f[..n - 1] + [f[n - 1]];
      if n == 31 {
        SumBound(f[..30]);
      }
    }
  }

  lemma FrameDecodes(f: seq<byte>)
    requires IsFrame(f)
    ensures After([], f) == [] && Packets([], f) == [Decode(f)]
  {
    FramePrefix(f, 31);
    var q := f[..31];
    assert f[..|f| - 1] == q && q + [f[31]] == f;
    AcceptedIsFrame(q, f[31]);
    assert q[..30] == f[..30];
    SameChannels(q, f);
  }

  lemma {:induction false} GapIgnored(g: seq<byte>)
    requires START_BYTE !in g
    ensures After([], g) == [] && Packets([], g) == []
  {
    if |g| > 0 {
      GapIgnored(g[..|g| - 1]);
    }
  }

  /** Any sequence of encoded frames, separated (and led and followed) by gaps
      free of start bytes, is decoded to exactly that sequence, in order. */
  lemma {:induction false} StreamDecodes(cs: seq<seq<nat>>, gaps: seq<seq<byte>>)
    requires |gaps| == |cs| + 1
    requires forall i :: 0 <= i < |cs| ==> ValidChannels(cs[i])
    requires forall i :: 0 <= i < |gaps| ==> START_BYTE !in gaps[i]
    ensures After([], Interleave(cs, gaps)) == [] && Packets([], Interleave(cs, gaps)) == cs
    decreases |cs|
  {
    hide After, Packets, Encode, IsFrame, ValidChannels;
    if |cs| == 0 {
      GapIgnored(gaps[0]);
    } else {
      var n := |cs| - 1;
      var front := Interleave(cs[..n], gaps[..n + 1]);
      var f, g := Encode(cs[n]), gaps[n + 1];
      StreamDecodes(cs[..n], gaps[..n + 1]);
      EncodedIsFrame(cs[n]);
      FrameDecodes(f);
      GapIgnored(g);
      AfterSplit([], front, f);
      PacketsSplit([], front, f);
      AfterSplit([], front + f, g);
      PacketsSplit([], front + f, g);
      assert cs[..n] + [cs[n]] == cs;
    }
  }

  function Interleave(cs: seq<seq<nat>>, gaps: seq<seq<byte>>): seq<byte>
    requires |gaps| == |cs| + 1
    requires forall i :: 0 <= i < |cs| ==> ValidChannels(cs[i])
    decreases |cs|
  {
    if |cs| == 0 then gaps[0]
    else Interleave(cs[..|cs| - 1], gaps[..|cs|]) + Encode(cs[|cs| - 1]) + gaps[|cs|]
  }

  // ----- a damaged packet is not accepted

  lemma {:induction false} SumChanged(s: seq<byte>, i: nat, x: byte)
    requires i < |s|
    ensures Sum(s[i := x]) == Sum(s) - s[i] + x
  {
    var n := |s| - 1;
    if i < n {
      SumChanged(s[..n], i, x);
      assert s[i := x][..n] == s[..n][i := x];
    } else {
      assert s[i := x][..n] == s[..n];
    }
  }

  lemma OneByteBreaks(f: seq<byte>, i: nat, x: byte)
    requires IsFrame(f) && i < PACKET_SIZE && x != f[i]
    ensures !IsFrame(f[i := x])
  {
    var g := f[i := x];
    if i < 30 {
      SumChanged(f[..30], i, x);
      assert g[..30] == f[..30][i := x];
    } else {
      assert g[..30] == f[..30];
    }
  }

  /** A packet with exactly one byte altered is not accepted within its 32 bytes. */
  lemma DamagedNotAccepted(f: seq<byte>, i: nat, x: byte, k: nat)
    requires IsFrame(f) && i < PACKET_SIZE && x != f[i] && k < PACKET_SIZE
    ensures !CompletesAt([], f[i := x], k)
  {
    var g := f[i := x];
    if CompletesAt([], g, k) {
      AcceptedAreLast32(g, k);
      assert g[k - 31..k + 1] == g;
      OneByteBreaks(f, i, x);
      assert false;
    }
  }
}
