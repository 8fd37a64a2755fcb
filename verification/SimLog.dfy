/** The simulator log reader: checksummed packets out of a raw byte file. */
module SimLog {
  import opened Crc32

  const MAGIC: octet := 0x56
  const HEAD_LEN := 8
  const TAIL_LEN := 4
  const EMPTY_LEN := HEAD_LEN + TAIL_LEN

  /** `count` is the length byte of the header. */
  datatype Packet = Packet(kind: octet, count: octet, device: octet, stamp: word, payload: seq<octet>) {
    ghost predicate Valid() {
      kind < 16 && |payload| == Length(count)
    }
  }

  // ----- little-endian words

  function Bytes4(x: word): (s: seq<octet>)
    ensures |s| == 4
  {
    [(x & 0xFF) as octet, ((x >> 8) & 0xFF) as octet, ((x >> 16) & 0xFF) as octet, ((x >> 24) & 0xFF) as octet]
  }

  function Word4(s: seq<octet>): word
    requires |s| == 4
  {
    (s[0] as word) | ((s[1] as word) << 8) | ((s[2] as word) << 16) | ((s[3] as word) << 24)
  }

  lemma WordRoundTrip(x: word)
    ensures Word4(Bytes4(x)) == x
  {}

  // ----- one packet

  /** The second byte: type above, protocol version 1 below. */
  function TypeByte(kind: octet): octet {
    (kind << 4) | 1
  }

  predicate Version1(b: octet) {
    b & 0x0F == 1
  }

  function Length(b: octet): nat {
    b as nat
  }

  predicate HasHeader(s: seq<octet>) {
    |s| > EMPTY_LEN - 1 && s[0] == MAGIC && Version1(s[1])
  }

  function Total(s: seq<octet>): nat
    requires HasHeader(s)
  {
    HEAD_LEN + Length(s[2]) + TAIL_LEN
  }

  /** The packet's own checksum, over everything before it. */
  predicate Sealed(p: seq<octet>)
    requires |p| >= TAIL_LEN
  {
    Crc(p[..|p| - TAIL_LEN]) == Word4(p[|p| - TAIL_LEN..])
  }

  function Read(p: seq<octet>): Packet
    requires HasHeader(p) && |p| == Total(p)
  {
    Packet((p[1] >> 4) & 0x0F, p[2], p[3], Word4(p[4..8]), p[HEAD_LEN..|p| - TAIL_LEN])
  }

  function Body(p: Packet): (s: seq<octet>)
    requires p.Valid()
    ensures |s| == HEAD_LEN + |p.payload|
  {
    [MAGIC, TypeByte(p.kind), p.count, p.device] + Bytes4(p.stamp) + p.payload
  }

  function Write(p: Packet): (s: seq<octet>)
    requires p.Valid()
    ensures |s| == EMPTY_LEN + |p.payload|
  {
    Body(p) + Bytes4(Crc(Body(p)))
  }

  lemma TypeRoundTrip(kind: octet)
    requires kind < 16
    ensures TypeByte(kind) & 0x0F == 1 && (TypeByte(kind) >> 4) & 0x0F == kind
  {}

  lemma PacketRoundTrip(p: Packet)
    requires p.Valid()
    ensures var s := Write(p); HasHeader(s) && |s| == Total(s) && Sealed(s) && Read(s) == p
  {
    var s, b := Write(p), Body(p);
    TypeRoundTrip(p.kind);
    WordRoundTrip(p.stamp);
    WordRoundTrip(Crc(b));
    hide Crc, Bytes4, Word4, TypeByte, Length;
    assert s[..|s| - TAIL_LEN] == b && s[|s| - TAIL_LEN..] == Bytes4(Crc(b));
    assert s[4..8] == Bytes4(p.stamp) && s[HEAD_LEN..|s| - TAIL_LEN] == p.payload;
  }

  // ----- the whole file

  /** What the reader makes of the bytes from some position on.  It stops at the
      first header whose packet would run past the end, and never looks at a
      packet that starts twelve bytes before it. */
  function Packets(s: seq<octet>): seq<Packet> {
    if |s| <= EMPTY_LEN then []
    else if !HasHeader(s) then Packets(s[1..])
    else if Total(s) > |s| then []
    else if Sealed(s[..Total(s)]) then [Read(s[..Total(s)])] + Packets(s[Total(s)..])
    else Packets(s[1..])
  }

  /** The reader stands at `i` with `out` read so far. */
  ghost predicate Reached(raw: seq<octet>, i: nat, out: seq<Packet>) {
    i <= |raw| && Packets(raw) == out + Packets(raw[i..])
  }

  predicate HeaderAt(raw: seq<octet>, i: nat)
    requires i + EMPTY_LEN <= |raw|
  {
    raw[i] == MAGIC && Version1(raw[i + 1])
  }

  function TotalAt(raw: seq<octet>, i: nat): nat
    requires i + EMPTY_LEN <= |raw|
  {
    HEAD_LEN + Length(raw[i + 2]) + TAIL_LEN
  }

  /** An intact packet at the front is read, whatever follows it. */
  lemma TakesFirst(p: seq<octet>, rest: seq<octet>)
    requires HasHeader(p) && |p| == Total(p) && Sealed(p) && |p + rest| > EMPTY_LEN
    ensures Packets(p + rest) == [Read(p)] + Packets(rest)
  {
    hide Sealed, Read, Version1, Length;
    var s := p + rest;
    assert s[0] == p[0] && s[1] == p[1] && s[2] == p[2];
    assert s[..|p|] == p && s[|p|..] == rest;
  }

  lemma Suffix(raw: seq<octet>, i: nat)
    requires i + EMPTY_LEN < |raw|
    ensures var s := raw[i..]; s[1..] == raw[i + 1..] && HasHeader(s) == HeaderAt(raw, i) && |s| > EMPTY_LEN
    ensures var s := raw[i..]; HasHeader(s) ==> Total(s) == TotalAt(raw, i)
    ensures var s, n := raw[i..], TotalAt(raw, i);
      i + n <= |raw| ==> s[..n] == raw[i..i + n] && s[n..] == raw[i + n..]
  {}

  lemma Appended(out: seq<Packet>, r: Packet, rest: seq<Packet>)
    ensures out + ([r] + rest) == (out + [r]) + rest
  {}

  lemma SameHeader(raw: seq<octet>, i: nat, p: seq<octet>)
    requires i + EMPTY_LEN <= |raw| && HeaderAt(raw, i) && i + TotalAt(raw, i) <= |raw|
    requires p == raw[i..i + TotalAt(raw, i)]
    ensures HasHeader(p) && |p| == Total(p)
  {}

  /** Where the reader goes from there. */
  lemma NextStops(raw: seq<octet>, i: nat, out: seq<Packet>)
    requires Reached(raw, i, out) && i + EMPTY_LEN < |raw| && HeaderAt(raw, i) && i + TotalAt(raw, i) > |raw|
    ensures Packets(raw) == out
  {}

  lemma NextTakes(raw: seq<octet>, i: nat, p: seq<octet>, out: seq<Packet>)
    requires Reached(raw, i, out) && i + EMPTY_LEN < |raw| && HeaderAt(raw, i) && i + TotalAt(raw, i) <= |raw|
    requires p == raw[i..i + TotalAt(raw, i)] && Sealed(p)
    ensures HasHeader(p) && |p| == Total(p) && Reached(raw, i + |p|, out + [Read(p)])
  {
    SameHeader(raw, i, p);
    hide HasHeader, Total, HeaderAt, TotalAt, Sealed, Read, Packets;
    var rest := raw[i + |p|..];
    assert raw[i..] == p + rest;
    TakesFirst(p, rest);
    Appended(out, Read(p), Packets(rest));
  }

  lemma NextSkips(raw: seq<octet>, i: nat, out: seq<Packet>)
    requires Reached(raw, i, out) && i + EMPTY_LEN < |raw|
    requires HeaderAt(raw, i) ==> i + TotalAt(raw, i) <= |raw| && !Sealed(raw[i..i + TotalAt(raw, i)])
    ensures Reached(raw, i + 1, out)
  {
    hide HasHeader, Total, HeaderAt, TotalAt, Sealed, Read;
    Suffix(raw, i);
  }

  method CheckSeal(p: seq<octet>) returns (ok: bool)
    requires |p| >= TAIL_LEN
    ensures ok == Sealed(p)
  {
    hide Crc, Word4;
    var crc := Stm32Crc32(p[..|p| - TAIL_LEN]);
    ok := crc == Word4(p[|p| - TAIL_LEN..]);
  }

  method ParseFrames(raw: seq<octet>) returns (out: seq<Packet>)
    ensures out == Packets(raw)
  {
    hide Reached, Packets, Sealed, Read, Version1, Length, HasHeader, Total;
    ReachedStart(raw);
    var i := 0;
    out := [];
    while i + EMPTY_LEN < |raw|
      invariant Reached(raw, i, out)
    {
      if raw[i] == MAGIC && Version1(raw[i + 1]) {
        var total := HEAD_LEN + Length(raw[i + 2]) + TAIL_LEN;
        if i + total > |raw| {
          NextStops(raw, i, out);
          return;
        }
        var pkt := raw[i..i + total];
        var intact := CheckSeal(pkt);
        if intact {
          NextTakes(raw, i, pkt, out);
          out := out + [Read(pkt)];
          i := i + total;
          continue;
        }
      }
      NextSkips(raw, i, out);
      i := i + 1;
    }
    ReachedEnd(raw, i, out);
  }

  lemma ReachedStart(raw: seq<octet>)
    ensures Reached(raw, 0, [])
  {}

  lemma ReachedEnd(raw: seq<octet>, i: nat, out: seq<Packet>)
    requires Reached(raw, i, out) && i + EMPTY_LEN >= |raw|
    ensures Packets(raw) == out
  {}

  // ----- which packets are found

  /** The reader gives up at `j`: too close to the end, or at a header whose
      packet would run past it. */
  predicate Ends(raw: seq<octet>, j: nat) {
    j + EMPTY_LEN >= |raw| || (HeaderAt(raw, j) && j + TotalAt(raw, j) > |raw|)
  }

  /** A packet that fits and whose checksum is right starts at `j`. */
  predicate IntactAt(raw: seq<octet>, j: nat) {
    j + EMPTY_LEN <= |raw| && HeaderAt(raw, j) && j + TotalAt(raw, j) <= |raw| && Sealed(raw[j..j + TotalAt(raw, j)])
  }

  /** Where the reader, standing at `i`, looks next. */
  function Onward(raw: seq<octet>, i: nat): (j: nat)
    requires !Ends(raw, i)
    ensures i < j <= |raw|
  {
    if IntactAt(raw, i) then i + TotalAt(raw, i) else i + 1
  }

  /** Standing at `i`, the reader comes to stand at `j`. */
  ghost predicate Scans(raw: seq<octet>, i: nat, j: nat)
    decreases |raw| - i
  {
    i == j || (!Ends(raw, i) && Scans(raw, Onward(raw, i), j))
  }

  /** Where the packets start that are found from `i` on. */
  function Starts(raw: seq<octet>, i: nat): (r: seq<nat>)
    ensures forall k :: k in r ==> k >= i && IntactAt(raw, k)
    decreases |raw| - i
  {
    if Ends(raw, i) then []
    else (if IntactAt(raw, i) then [i] else []) + Starts(raw, Onward(raw, i))
  }

  /** The packet starting at `j`. */
  function PacketAt(raw: seq<octet>, j: nat): Packet
    requires IntactAt(raw, j)
  {
    var p := raw[j..j + TotalAt(raw, j)];
    SameHeader(raw, j, p);
    Read(p)
  }

  lemma SliceOf(raw: seq<octet>, j: nat, m: nat, a: nat, b: nat)
    requires a <= b <= m && j + m <= |raw|
    ensures raw[j..j + m][a..b] == raw[j + a..j + b]
  {
    var s, t := raw[j..j + m][a..b], raw[j + a..j + b];
    forall k | 0 <= k < |s| ensures s[k] == t[k] {
      assert s[k] == raw[j..j + m][a + k];
    }
  }

  /** Four bytes at `k`, low byte first. */
  ghost function WordAt(raw: seq<octet>, k: nat): word
    requires k + 4 <= |raw|
  {
    (raw[k] as word) | ((raw[k + 1] as word) << 8) | ((raw[k + 2] as word) << 16) | ((raw[k + 3] as word) << 24)
  }

  lemma WordOfSlice(raw: seq<octet>, k: nat)
    requires k + 4 <= |raw|
    ensures Word4(raw[k..k + 4]) == WordAt(raw, k)
  {}

  /** A packet at `j`, spelled out: a payload of `n` bytes behind an eight-byte
      header, and behind it the checksum of both, low byte first. */
  ghost predicate PacketBytes(raw: seq<octet>, j: nat, n: nat) {
    j + 12 + n <= |raw| && raw[j] == 0x56 && raw[j + 1] & 0x0F == 1 && Crc(raw[j..j + 8 + n]) == WordAt(raw, j + 8 + n)
  }

  lemma IntactExactly(raw: seq<octet>, j: nat)
    requires j + 12 <= |raw|
    ensures IntactAt(raw, j) <==> PacketBytes(raw, j, raw[j + 2] as nat)
  {
    var n := Length(raw[j + 2]);
    assert n == raw[j + 2] as nat;
    assert TotalAt(raw, j) == 12 + n;
    hide Crc, Length, Word4, WordAt, TotalAt, Version1, Sealed;
    if j + 12 + n <= |raw| {
      SealedAt(raw, j, n);
    }
    VersionIs(raw[j + 1]);
  }

  lemma VersionIs(b: octet)
    ensures Version1(b) <==> b & 0x0F == 1
  {}

  lemma SealedAt(raw: seq<octet>, j: nat, n: nat)
    requires j + 12 + n <= |raw|
    ensures Sealed(raw[j..j + (12 + n)]) <==> Crc(raw[j..j + 8 + n]) == WordAt(raw, j + 8 + n)
  {
    hide Crc, Word4, WordAt;
    var p := raw[j..j + (12 + n)];
    SliceOf(raw, j, 12 + n, 0, 8 + n);
    SliceOf(raw, j, 12 + n, 8 + n, 12 + n);
    assert p[..|p| - 4] == p[0..8 + n] && p[|p| - 4..] == p[8 + n..12 + n];
    WordOfSlice(raw, j + 8 + n);
  }

  /** And the fields it is read as. */
  lemma FieldsAt(raw: seq<octet>, j: nat)
    requires IntactAt(raw, j)
    ensures var p, n := PacketAt(raw, j), raw[j + 2] as nat;
      && p.kind == (raw[j + 1] >> 4) & 0x0F && p.count == raw[j + 2] && p.device == raw[j + 3]
      && p.stamp == WordAt(raw, j + 4) && j + 8 + n <= |raw| && p.payload == raw[j + 8..j + 8 + n]
  {
    var n := Length(raw[j + 2]);
    assert n == raw[j + 2] as nat;
    assert TotalAt(raw, j) == 12 + n;
    var s := raw[j..j + (12 + n)];
    SameHeader(raw, j, s);
    assert PacketAt(raw, j) == Read(s);
    ReadFields(s);
    hide Sealed, Length, Word4, WordAt, TotalAt, Total, HeaderAt, HasHeader, Crc, Read, PacketAt, Version1, IntactAt;
    SliceOf(raw, j, 12 + n, 4, 8);
    SliceOf(raw, j, 12 + n, 8, 8 + n);
    WordOfSlice(raw, j + 4);
    assert s[1] == raw[j + 1] && s[2] == raw[j + 2] && s[3] == raw[j + 3];
    assert s[HEAD_LEN..|s| - TAIL_LEN] == s[8..8 + n];
  }

  lemma ReadFields(s: seq<octet>)
    requires HasHeader(s) && |s| == Total(s)
    ensures var p := Read(s);
      p.kind == (s[1] >> 4) & 0x0F && p.count == s[2] && p.device == s[3] && p.stamp == Word4(s[4..8]) &&
      p.payload == s[HEAD_LEN..|s| - TAIL_LEN]
  {}

  function PacketsAt(raw: seq<octet>, js: seq<nat>): seq<Packet>
    requires forall j :: j in js ==> IntactAt(raw, j)
  {
    seq(|js|, n requires 0 <= n < |js| => PacketAt(raw, js[n]))
  }

  lemma PacketsAtFirst(raw: seq<octet>, j: nat, js: seq<nat>)
    requires IntactAt(raw, j) && forall k :: k in js ==> IntactAt(raw, k)
    ensures PacketsAt(raw, [j] + js) == [PacketAt(raw, j)] + PacketsAt(raw, js)
  {
    hide IntactAt;
  }

  /** What is yielded is what starts at those places. */
  lemma {:induction false} PacketsStart(raw: seq<octet>, i: nat)
    requires i <= |raw|
    ensures Packets(raw[i..]) == PacketsAt(raw, Starts(raw, i))
    decreases |raw| - i
  {
    if !Ends(raw, i) {
      var next := Onward(raw, i);
      PacketsStart(raw, next);
      if IntactAt(raw, i) {
        PacketsAtFirst(raw, i, Starts(raw, next));
      }
    }
    hide Sealed, Read, Version1, Length, PacketsAt;
    if i + EMPTY_LEN < |raw| {
      Suffix(raw, i);
    }
  }

  /** Byte `i` belongs to a packet that is found. */
  ghost predicate Within(raw: seq<octet>, from: nat, i: nat) {
    exists j :: j in Starts(raw, from) && j <= i < j + TotalAt(raw, j)
  }

  /** An intact packet is found, or lies in one that is, exactly when the reader
      does not give up at or before it. */
  lemma {:induction false} FoundExactly(raw: seq<octet>, from: nat, i: nat)
    requires from <= i && IntactAt(raw, i)
    ensures Within(raw, from, i) <==> forall j :: from <= j <= i && Scans(raw, from, j) ==> !Ends(raw, j)
    decreases |raw| - from
  {
    hide HeaderAt, TotalAt, Sealed, IntactAt, Ends, Onward;
    assert Scans(raw, from, from);
    if !Ends(raw, from) {
      var next := Onward(raw, from);
      NextStart(raw, from, i);
      forall j: nat | j <= i && Scans(raw, next, j) ensures next <= j && Scans(raw, from, j) {
        ScansForward(raw, next, j);
      }
      if next <= i {
        FoundExactly(raw, next, i);
      }
    }
  }

  lemma {:induction false} ScansForward(raw: seq<octet>, i: nat, j: nat)
    requires Scans(raw, i, j)
    ensures i <= j
    decreases |raw| - i
  {
    if i != j {
      ScansForward(raw, Onward(raw, i), j);
    }
  }

  /** One step of the reader, seen from byte `i`. */
  lemma NextStart(raw: seq<octet>, from: nat, i: nat)
    requires from <= i && IntactAt(raw, i) && !Ends(raw, from)
    ensures i < Onward(raw, from) ==> Within(raw, from, i)
    ensures Onward(raw, from) <= i ==> (Within(raw, from, i) <==> Within(raw, Onward(raw, from), i))
  {
    hide HeaderAt, TotalAt, Sealed, Ends;
    var next := Onward(raw, from);
    var found, rest := Starts(raw, from), Starts(raw, next);
    assert forall j :: j in rest ==> j in found;
    assert forall j :: j in found ==> j in rest || (j == from && IntactAt(raw, from));
    if IntactAt(raw, from) {
      assert found[0] == from;
    }
  }

  /** The reader gives up in exactly one place. */
  lemma {:induction false} GivesUp(raw: seq<octet>, i: nat) returns (j: nat)
    requires i <= |raw|
    ensures i <= j <= |raw| && Scans(raw, i, j) && Ends(raw, j)
    ensures forall k: nat :: Scans(raw, i, k) ==> k <= j && (Ends(raw, k) ==> k == j)
    decreases |raw| - i
  {
    if Ends(raw, i) {
      j := i;
    } else {
      j := GivesUp(raw, Onward(raw, i));
    }
  }

  /** So what is found is exactly what starts, or lies in a packet that starts,
      before that place. */
  lemma FoundBefore(raw: seq<octet>, i: nat, stop: nat)
    requires IntactAt(raw, i) && stop <= |raw| && Scans(raw, 0, stop) && Ends(raw, stop)
    ensures Within(raw, 0, i) <==> i < stop
  {
    hide IntactAt, Ends, Within, Scans;
    FoundExactly(raw, 0, i);
    var j := GivesUp(raw, 0);
  }

  /** Three stray bytes that look like a header hide a whole packet. */
  lemma StrayHeaderHides(p: Packet)
    requires p.Valid() && 0 < |p.payload| < 252
    ensures Packets(Write(p)) == [p] && Packets([MAGIC, TypeByte(0), 0xFF] + Write(p)) == []
  {
    hide Write, Read, Sealed;
    FirstPacket(p, []);
    assert Write(p) + [] == Write(p);
    TypeRoundTrip(0);
    var s := [MAGIC, TypeByte(0), 0xFF] + Write(p);
    assert s[0] == MAGIC && s[1] == TypeByte(0) && s[2] == 0xFF;
    assert HasHeader(s) && Total(s) == 267;
  }

  // ----- what comes back

  function Stream(ps: seq<Packet>): seq<octet>
    requires forall p :: p in ps ==> p.Valid()
  {
    if |ps| == 0 then [] else Write(ps[0]) + Stream(ps[1..])
  }

  lemma FirstPacket(p: Packet, rest: seq<octet>)
    requires p.Valid() && |Write(p) + rest| > EMPTY_LEN
    ensures Packets(Write(p) + rest) == [p] + Packets(rest)
  {
    hide Write, Read, Sealed, HasHeader, Total, Packets;
    PacketRoundTrip(p);
    TakesFirst(Write(p), rest);
  }

  /** A clean log reads back exactly, except that a packet without payload at
      the very end is never reported. */
  lemma {:induction false} CleanLog(ps: seq<Packet>)
    requires forall p :: p in ps ==> p.Valid()
    ensures Packets(Stream(ps)) == ps <==> !(|ps| > 0 && ps[|ps| - 1].payload == [])
    ensures |ps| > 0 && ps[|ps| - 1].payload == [] ==> Packets(Stream(ps)) == ps[..|ps| - 1]
  {
    hide Write;
    if |ps| == 0 {
    } else if |ps| == 1 && ps[0].payload == [] {
      assert Stream(ps) == Write(ps[0]) + [];
    } else {
      CleanLog(ps[1..]);
      assert ps == [ps[0]] + ps[1..];
      FirstPacket(ps[0], Stream(ps[1..]));
      if |ps| > 1 {
        assert ps[..|ps| - 1] == [ps[0]] + ps[1..][..|ps| - 2];
      }
    }
  }

  /** Damage confined to four consecutive bytes before the checksum is always
      noticed: the packet no longer matches its seal. */
  lemma DamageNoticed(p: Packet, i: nat, d: seq<octet>)
    requires p.Valid() && |d| <= 4 && i + |d| <= HEAD_LEN + |p.payload| && d != Write(p)[i..i + |d|]
    ensures !Sealed(Write(p)[..i] + d + Write(p)[i + |d|..])
  {
    PacketRoundTrip(p);
    SealBreaks(Write(p), i, d);
  }

  lemma SealBreaks(w: seq<octet>, i: nat, d: seq<octet>)
    requires |w| >= TAIL_LEN && Sealed(w)
    requires |d| <= 4 && i + |d| <= |w| - TAIL_LEN && d != w[i..i + |d|]
    ensures !Sealed(w[..i] + d + w[i + |d|..])
  {
    hide Crc, Word4;
    var n, j := |w| - TAIL_LEN, i + |d|;
    Patched(w, i, d, n);
    FourBytesDetected(w[..i], d, w[i..j], w[j..n]);
  }

  lemma Patched(w: seq<octet>, i: nat, d: seq<octet>, n: nat)
    requires i + |d| <= n <= |w|
    ensures var j := i + |d|; var x := w[..i] + d + w[j..];
      |x| == |w| && x[..n] == w[..i] + d + w[j..n] && x[n..] == w[n..] && w[..n] == w[..i] + w[i..j] + w[j..n]
  {}
}
