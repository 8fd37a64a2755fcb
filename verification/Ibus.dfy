/** The iBUS receiver: a byte-at-a-time state machine, and what it does to whole
    byte streams. */
module Ibus {
  import opened Bytes

  const CHANNELS := 14
  const PACKET_SIZE := 32
  const START_BYTE: byte := 0x20
  const CMD_CHANNELS: byte := 0x40
  const CHANNEL_RANGE := 0x1000

  // ----- frames

  function Sum(s: seq<byte>): nat {
    if |s| == 0 then 0 else Sum(s[..|s| - 1]) + s[|s| - 1]
  }

  /** Two bytes, low first. */
  function Word(lo: byte, hi: byte): nat {
    (lo as int) + 256 * (hi as int)
  }

  /** The running checksum after the bytes `s`, in 16-bit arithmetic. */
  function Checksum(s: seq<byte>): u16 {
    (0xFFFF - Sum(s)) % 0x1_0000
  }

  /** A well-formed packet: header, then fourteen channels, then the checksum
      0xFFFF minus the sum of the first thirty bytes, low byte first. */
  ghost predicate IsFrame(f: seq<byte>) {
    |f| == PACKET_SIZE && f[0] == START_BYTE && f[1] == CMD_CHANNELS &&
    Word(f[30], f[31]) == 0xFFFF - Sum(f[..30])
  }

  function Channel(f: seq<byte>, i: nat): nat
    requires i < CHANNELS && |f| >= 30
  {
    Word(f[2 + i * 2], f[3 + i * 2]) % CHANNEL_RANGE
  }

  function Decode(f: seq<byte>): (c: seq<nat>)
    requires |f| >= 30
    ensures |c| == CHANNELS && forall i :: 0 <= i < CHANNELS ==> c[i] < CHANNEL_RANGE
  {
    seq(CHANNELS, i requires 0 <= i < CHANNELS => Channel(f, i))
  }

  /** Only the first thirty bytes carry channels. */
  lemma SameChannels(p: seq<byte>, f: seq<byte>)
    requires |p| >= 30 && |f| >= 30 && p[..30] == f[..30]
    ensures Decode(p) == Decode(f)
  {}

  // ----- the machine, abstractly: the bytes of the packet received so far

  /** What one byte does to the packet in progress. */
  function Step(p: seq<byte>, b: byte): seq<byte>
    requires |p| < PACKET_SIZE
  {
    if |p| == 0 then (if b == START_BYTE then [b] else [])
    else if |p| == 1 then (if b == CMD_CHANNELS then p + [b] else [])
    else if |p| < 30 then p + [b]
    else if |p| == 30 then (if b == Checksum(p) % 256 then p + [b] else [])
    else []
  }

  /** Whether that byte completes a packet. */
  predicate Accepts(p: seq<byte>, b: byte)
    requires |p| < PACKET_SIZE
  {
    |p| == 31 && b == Checksum(p[..30]) / 256
  }

  /** A packet in progress has passed every test made so far. */
  ghost predicate InProgress(p: seq<byte>) {
    && |p| < PACKET_SIZE
    && (|p| > 0 ==> p[0] == START_BYTE)
    && (|p| > 1 ==> p[1] == CMD_CHANNELS)
    && (|p| > 30 ==> p[30] == Checksum(p[..30]) % 256)
  }

  lemma StepKeepsProgress(p: seq<byte>, b: byte)
    requires InProgress(p)
    ensures InProgress(Step(p, b))
  {}

  /** Thirty bytes cannot sum past the checksum's sixteen bits. */
  lemma {:induction false} SumBound(s: seq<byte>)
    ensures Sum(s) <= 255 * |s|
  {
    if |s| > 0 {
      SumBound(s[..|s| - 1]);
    }
  }

  lemma AcceptedIsFrame(p: seq<byte>, b: byte)
    requires InProgress(p) && |p| == 31
    ensures Accepts(p, b) <==> IsFrame(p + [b])
  {
    var f := p + [b];
    assert f[..30] == p[..30];
    SumBound(p[..30]);
  }

  lemma TakenOff(sum: nat, b: byte)
    ensures ((0xFFFF - sum) % 0x1_0000 - b) % 0x1_0000 == (0xFFFF - (sum + b)) % 0x1_0000
  {}

  // ----- the receiver as it runs

  datatype Mode = WaitStart | WaitCmd | Payload | ChecksumL | ChecksumH

  class RcData {
    var channels: seq<nat>
    var failsafe: bool

    constructor ()
      ensures channels == seq(CHANNELS, i => 0) && !failsafe
    {
      channels := seq(CHANNELS, i => 0);
      failsafe := false;
    }
  }

  class Receiver {
    var mode: Mode
    var buffer: array<byte>
    var idx: nat
    var checksum: u16

    ghost predicate Valid()
      reads this, buffer
    {
      && buffer.Length == PACKET_SIZE
      && match mode
         case WaitStart => true
         case WaitCmd => idx == 1 && buffer[0] == START_BYTE && checksum == Checksum(buffer[..1])
         case Payload => 2 <= idx < 30 && Headed() && checksum == Checksum(buffer[..idx])
         case ChecksumL => idx == 30 && Headed() && checksum == Checksum(buffer[..30])
         case ChecksumH => idx == 30 && Headed() && checksum == Checksum(buffer[..30])
    }

    ghost predicate Headed()
      reads this, buffer
      requires buffer.Length == PACKET_SIZE
    {
      buffer[0] == START_BYTE && buffer[1] == CMD_CHANNELS
    }

    /** The packet in progress: what the buffer and the mode stand for. */
    ghost function Progress(): (p: seq<byte>)
      reads this, buffer
      requires Valid()
      ensures InProgress(p)
    {
      match mode
      case WaitStart => []
      case WaitCmd => buffer[..1]
      case Payload => buffer[..idx]
      case ChecksumL => buffer[..30]
      case ChecksumH =>
        assert (buffer[..30] + [checksum % 256])[..30] == buffer[..30];
        buffer[..30] + [checksum % 256]
    }

    constructor ()
      ensures Valid() && fresh(buffer) && Progress() == []
    {
      mode := WaitStart;
      buffer := new byte[PACKET_SIZE](i => 0);
      idx := 0;
      checksum := 0xFFFF;
    }

    /** Waits for a start byte again, and clears the caller's record if given. */
    method Init(data: RcData?)
      requires Valid()
      modifies `mode, `idx, data
      ensures Valid() && Progress() == []
      ensures data != null ==> data.channels == seq(CHANNELS, i => 0) && !data.failsafe
    {
      if data != null {
        data.channels := seq(CHANNELS, i => 0);
        data.failsafe := false;
      }
      mode := WaitStart;
      idx := 0;
    }

    /** Stores a byte and takes it off the running checksum. */
    method Append(b: byte)
      requires buffer.Length == PACKET_SIZE && idx < PACKET_SIZE && checksum == Checksum(buffer[..idx])
      modifies `idx, `checksum, buffer
      ensures idx == old(idx) + 1 && buffer[..idx] == old(buffer[..idx]) + [b] && checksum == Checksum(buffer[..idx])
    {
      buffer[idx] := b;
      checksum := (checksum - b) % 0x1_0000;
      idx := idx + 1;
      ghost var s := buffer[..idx];
      assert s[..|s| - 1] == old(buffer[..idx]);
      TakenOff(Sum(old(buffer[..idx])), b);
    }

    /** Decodes the fourteen channels out of the buffer. */
    method StoreChannels(data: RcData)
      requires Valid() && |data.channels| == CHANNELS
      modifies data`channels
      ensures data.channels == Decode(buffer[..30])
    {
      for i := 0 to CHANNELS
        invariant |data.channels| == CHANNELS
        invariant forall k :: 0 <= k < i ==> data.channels[k] == Channel(buffer[..30], k)
      {
        var raw := Word(buffer[2 + i * 2], buffer[3 + i * 2]);
        data.channels := data.channels[i := raw % CHANNEL_RANGE];
      }
    }

    method Begin(b: byte)
      requires Valid() && mode == WaitStart && b == START_BYTE
      modifies `mode, `idx, `checksum, buffer
      ensures Valid() && Progress() == [b]
    {
      buffer[0] := b;
      checksum := 0xFFFF - b;
      idx := 1;
      mode := WaitCmd;
      assert buffer[..1] == [b] && [b][..0] == [];
      assert Sum([b]) == b;
    }

    method Finish(b: byte, data: RcData?) returns (complete: bool)
      requires Valid() && mode == ChecksumH
      requires data != null ==> |data.channels| == CHANNELS
      modifies `mode, data
      ensures Valid() && Progress() == []
      ensures complete == Accepts(old(Progress()), b)
      ensures complete && data != null ==> data.channels == Decode(old(Progress())) && !data.failsafe
      ensures !complete && data != null ==> data.channels == old(data.channels) && data.failsafe == old(data.failsafe)
    {
      complete := b == (checksum / 256) % 256;
      assert Progress()[..30] == buffer[..30] && |Progress()| == 31;
      if complete && data != null {
        SameChannels(buffer[..30], Progress());
        StoreChannels(data);
        data.failsafe := false;
      }
      mode := WaitStart;
    }

    method ParseByte(b: byte, data: RcData?) returns (complete: bool)
      requires Valid()
      requires data != null ==> |data.channels| == CHANNELS
      modifies `mode, `idx, `checksum, buffer, data
      ensures Valid()
      ensures Progress() == Step(old(Progress()), b)
      ensures complete == Accepts(old(Progress()), b)
      ensures complete && data != null ==> data.channels == Decode(old(Progress())) && !data.failsafe
      ensures !complete && data != null ==> data.channels == old(data.channels) && data.failsafe == old(data.failsafe)
    {
      hide Sum, Decode, Checksum;
      complete := false;
      match mode
      case WaitStart =>
        if b == START_BYTE {
          Begin(b);
        }
      case WaitCmd =>
        if b == CMD_CHANNELS {
          Append(b);
          mode := Payload;
        } else {
          mode := WaitStart;
        }
      case Payload =>
        Append(b);
        if idx >= 30 {
          mode := ChecksumL;
        }
      case ChecksumL =>
        mode := if b == checksum % 256 then ChecksumH else WaitStart;
      case ChecksumH =>
        complete := Finish(b, data);
    }
  }
}
