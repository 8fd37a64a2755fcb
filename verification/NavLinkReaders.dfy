/** The two readers that keep a buffer between chunks and trim it in place. */
module NavLinkReaders {
  import opened Bytes
  import opened Splitter
  import opened NavLinkFrames

  // ----- the telemetry tools' reader

  datatype Decoded<+V> = Unknown | Known(name: string, value: V)

  /** The frame codec, as a pure function of the frame's bytes. */
  datatype Codec<!V> = Codec(ok: seq<byte> -> bool, decode: seq<byte> -> Decoded<V>)

  /** The latest value and the number of messages, by message name. */
  datatype Tally<V> = Tally(latest: map<string, V>, counts: map<string, nat>)

  function Note<V>(codec: Codec<V>, t: Tally<V>, f: seq<byte>): Tally<V> {
    match codec.decode(f)
    case Unknown => t
    case Known(name, value) =>
      Tally(t.latest[name := value], t.counts[name := (if name in t.counts then t.counts[name] else 0) + 1])
  }

  function NoteAll<V>(codec: Codec<V>, t: Tally<V>, fs: seq<seq<byte>>): Tally<V> {
    if |fs| == 0 then t else Note(codec, NoteAll(codec, t, fs[..|fs| - 1]), fs[|fs| - 1])
  }

  lemma {:induction false} NoteAllSplit<V>(codec: Codec<V>, t: Tally<V>, a: seq<seq<byte>>, b: seq<seq<byte>>)
    ensures NoteAll(codec, t, a + b) == NoteAll(codec, NoteAll(codec, t, a), b)
    decreases |b|
  {
    if |b| == 0 {
      assert a + b == a;
    } else {
      var n := |b| - 1;
      NoteAllSplit(codec, t, a, b[..n]);
      assert (a + b)[..|a + b| - 1] == a + b[..n];
    }
  }

  /** The frames of a name, as the counters count them. */
  function Named<V>(codec: Codec<V>, fs: seq<seq<byte>>, name: string): nat {
    if |fs| == 0 then 0
    else
      var d := codec.decode(fs[|fs| - 1]);
      Named(codec, fs[..|fs| - 1], name) + (if d.Known? && d.name == name then 1 else 0)
  }

  /** Frame `i` is the last one of the name, with this value. */
  ghost predicate LastOf<V>(codec: Codec<V>, fs: seq<seq<byte>>, name: string, value: V, i: nat) {
    && i < |fs| && codec.decode(fs[i]) == Known(name, value)
    && forall j :: i < j < |fs| ==> var d := codec.decode(fs[j]); d.Known? ==> d.name != name
  }

  /** The tally counts every frame of a known kind once and keeps the last. */
  lemma {:induction false} TallyCounts<V>(codec: Codec<V>, fs: seq<seq<byte>>, name: string)
    ensures var t := NoteAll(codec, Tally(map[], map[]), fs);
      (name in t.counts <==> Named(codec, fs, name) > 0) &&
      (name in t.counts ==> t.counts[name] == Named(codec, fs, name)) &&
      t.latest.Keys == t.counts.Keys &&
      (name in t.latest ==> exists i :: LastOf(codec, fs, name, t.latest[name], i))
  {
    if |fs| > 0 {
      var n := |fs| - 1;
      TallyCounts(codec, fs[..n], name);
      var t0, t := NoteAll(codec, Tally(map[], map[]), fs[..n]), NoteAll(codec, Tally(map[], map[]), fs);
      var d := codec.decode(fs[n]);
      if d.Known? && d.name == name {
        assert LastOf(codec, fs, name, d.value, n);
      } else if name in t.latest {
        var i :| LastOf(codec, fs[..n], name, t0.latest[name], i);
        assert LastOf(codec, fs, name, t.latest[name], i);
      }
    }
  }

  lemma NoteOne<V>(codec: Codec<V>, t: Tally<V>, fs: seq<seq<byte>>, f: seq<byte>)
    ensures NoteAll(codec, t, fs + [f]) == Note(codec, NoteAll(codec, t, fs), f)
    ensures NoteAll(codec, t, []) == t
  {}

  /** A pass over `s` stands at `i`, having tallied `frames`. */
  ghost predicate Passed<V>(codec: Codec<V>, s: seq<byte>, start: Tally<V>, i: nat, t: Tally<V>,
                            frames: seq<seq<byte>>) {
    Sound(Checked(codec.ok)) && i <= |s| && At(Checked(codec.ok), s, i, frames) && t == NoteAll(codec, start, frames)
  }

  ghost predicate Finished<V>(codec: Codec<V>, s: seq<byte>, start: Tally<V>, i: nat, t: Tally<V>) {
    Sound(Checked(codec.ok)) && i <= |s| &&
    var r := Split(Checked(codec.ok), s); r.rest == s[i..] && t == NoteAll(codec, start, r.frames)
  }

  lemma Begins<V>(codec: Codec<V>, s: seq<byte>, start: Tally<V>)
    ensures Passed(codec, s, start, 0, start, [])
  {
    CheckedStable(codec.ok);
    AtStart(Checked(codec.ok), s);
  }

  lemma Skips<V>(codec: Codec<V>, s: seq<byte>, start: Tally<V>, i: nat, t: Tally<V>, frames: seq<seq<byte>>)
    requires Passed(codec, s, start, i, t, frames) && i < |s| && s[i] != SYNC
    ensures Passed(codec, s, start, i + 1, t, frames)
  {
    hide Checked, At, Sound;
    PassOver(codec.ok, s, i, frames);
  }

  lemma Judges<V>(codec: Codec<V>, s: seq<byte>, start: Tally<V>, i: nat, t: Tally<V>, frames: seq<seq<byte>>, n: nat)
    requires Passed(codec, s, start, i, t, frames) && i + HDR_LEN + CRC_LEN <= |s| && s[i] == SYNC
    requires n == HDR_LEN + s[i + 2] + CRC_LEN && i + n <= |s|
    ensures var f := s[i..i + n];
      if codec.ok(f) then Passed(codec, s, start, i + n, Note(codec, t, f), frames + [f])
      else Passed(codec, s, start, i + 1, t, frames)
  {
    hide Checked, At, Sound, NoteAll, Note;
    Judge(codec.ok, s, i, s[i..i + n], frames);
    NoteOne(codec, start, frames, s[i..i + n]);
  }

  lemma Finishes<V>(codec: Codec<V>, s: seq<byte>, start: Tally<V>, i: nat, t: Tally<V>, frames: seq<seq<byte>>)
    requires Passed(codec, s, start, i, t, frames)
    requires i == |s| || (s[i] == SYNC && (i + HDR_LEN + CRC_LEN > |s| || i + HDR_LEN + s[i + 2] + CRC_LEN > |s|))
    ensures Finished(codec, s, start, i, t)
  {
    hide Checked, At, Sound, NoteAll, Split;
    Leave(codec.ok, s, i, frames);
  }

  /** One pass over the buffer: tallies the frames and returns where it stopped. */
  method Scan<V>(codec: Codec<V>, buf: seq<byte>, start: Tally<V>) returns (i: nat, t: Tally<V>)
    ensures Finished(codec, buf, start, i, t)
  {
    hide Passed, Finished, Note;
    ghost var frames: seq<seq<byte>> := [];
    i, t := 0, start;
    Begins(codec, buf, start);
    while i < |buf|
      invariant i <= |buf| && Passed(codec, buf, start, i, t, frames)
    {
      if buf[i] != SYNC {
        Skips(codec, buf, start, i, t, frames);
        i := i + 1;
        continue;
      }
      if i + HDR_LEN + CRC_LEN > |buf| {
        break;
      }
      var total := HDR_LEN + buf[i + 2] + CRC_LEN;
      if i + total > |buf| {
        break;
      }
      Judges(codec, buf, start, i, t, frames, total);
      var f := buf[i..i + total];
      if codec.ok(f) {
        t := Note(codec, t, f);
        frames := frames + [f];
        i := i + total;
      } else {
        i := i + 1;
      }
    }
    Finishes(codec, buf, start, i, t, frames);
  }

  class TelemetryReader<V> {
    var buf: seq<byte>
    var telem: map<string, V>
    var counts: map<string, nat>

    ghost function Tallied(): Tally<V>
      reads this
    {
      Tally(telem, counts)
    }

    constructor ()
      ensures buf == [] && Tallied() == Tally(map[], map[])
    {
      buf, telem, counts := [], map[], map[];
    }

    /** Consumes the complete frames in the buffer. */
    method ParseFrames(codec: Codec<V>)
      modifies this
      ensures Sound(Checked(codec.ok))
      ensures var r := Split(Checked(codec.ok), old(buf));
        buf == r.rest && Tallied() == NoteAll(codec, old(Tallied()), r.frames)
    {
      hide Split, NoteAll;
      var i, t := Scan(codec, buf, Tally(telem, counts));
      telem, counts := t.latest, t.counts;
      buf := buf[i..];
    }

    /** Chunks as they arrive: the outcome depends only on the bytes, not on how
        they were cut. */
    method ReadAll(codec: Codec<V>, chunks: seq<seq<byte>>)
      requires buf == []
      modifies this
      ensures Sound(Checked(codec.ok))
      ensures var r := Split(Checked(codec.ok), Flat(chunks));
        buf == r.rest && |buf| < MAX_FRAME && Tallied() == NoteAll(codec, old(Tallied()), r.frames)
    {
      ghost var rule := Checked(codec.ok);
      CheckedStable(codec.ok);
      for i := 0 to |chunks|
        invariant var r := Feed(rule, chunks[..i]);
          buf == r.rest && Tallied() == NoteAll(codec, old(Tallied()), r.frames)
      {
        ghost var a := Feed(rule, chunks[..i]);
        ghost var b := Split(rule, a.rest + chunks[i]);
        buf := buf + chunks[i];
        ParseFrames(codec);
        assert chunks[..i + 1][..i] == chunks[..i];
        NoteAllSplit(codec, old(Tallied()), a.frames, b.frames);
      }
      assert chunks[..|chunks|] == chunks;
      ChunkingIrrelevant(rule, chunks);
      LeftoverBounded(codec.ok, Flat(chunks));
    }
  }

  // ----- the bench runner's reader

  datatype Message = Message(msgid: int, payload: seq<byte>)

  /** The message a frame carries: a 24-bit id, low byte first, then the payload. */
  function Id(lo: int, mid: int, hi: int): int {
    lo + mid * 0x100 + hi * 0x1_0000
  }

  function MessageOf(f: seq<byte>): Message
    requires Whole(f)
  {
    Message(Id(f[7], f[8], f[9]), f[HDR_LEN..HDR_LEN + f[2]])
  }

  predicate AllWhole(fs: seq<seq<byte>>) {
    forall i :: 0 <= i < |fs| ==> Whole(fs[i])
  }

  function Messages(fs: seq<seq<byte>>): seq<Message>
    requires AllWhole(fs)
  {
    seq(|fs|, i requires 0 <= i < |fs| => MessageOf(fs[i]))
  }

  lemma MessagesSplit(a: seq<seq<byte>>, b: seq<seq<byte>>)
    requires AllWhole(a) && AllWhole(b)
    ensures AllWhole(a + b) && Messages(a + b) == Messages(a) + Messages(b)
  {}

  lemma OneMessage(f: seq<byte>)
    requires Whole(f)
    ensures AllWhole([f]) && Messages([f]) == [MessageOf(f)]
  {}

  /** What a sender puts around a payload; the bytes the bench reader does not look
      at are anything. */
  datatype Header = Header(version: byte, flags: byte, count: byte, sysid: byte, compid: byte,
                           id0: byte, id1: byte, id2: byte, crc0: byte, crc1: byte)

  function Sent(h: Header, payload: seq<byte>): seq<byte>
    requires |payload| < 256
  {
    [0x56, h.version, |payload|, h.flags, h.count, h.sysid, h.compid, h.id0, h.id1, h.id2] + payload + [h.crc0, h.crc1]
  }

  lemma SentIsWhole(h: Header, payload: seq<byte>)
    requires |payload| < 256
    ensures var f := Sent(h, payload);
      Whole(f) && MessageOf(f) == Message(h.id0 as int + 256 * h.id1 as int + 65536 * h.id2 as int, payload)
  {
    var f := Sent(h, payload);
    assert f[10..10 + |payload|] == payload;
  }

  /** What was sent, between gaps free of sync bytes, is what the bench reader
      yields: the ids and payloads, in order; and if the codec accepts it, it is
      what the telemetry reader takes. */
  lemma SentRoundTrip(ok: seq<byte> -> bool, hs: seq<Header>, ps: seq<seq<byte>>, gaps: seq<seq<byte>>,
                      fs: seq<seq<byte>>)
    requires |hs| == |ps| == |fs| && |gaps| == |hs| + 1 && forall i :: 0 <= i < |gaps| ==> SYNC !in gaps[i]
    requires forall i :: 0 <= i < |ps| ==> |ps[i]| < 256 && fs[i] == Sent(hs[i], ps[i])
    ensures Sound(Unchecked()) && Split(Unchecked(), Woven(fs, gaps)) == Parsed(fs, []) && AllWhole(fs)
    ensures forall i :: 0 <= i < |hs| ==>
      Messages(fs)[i] == Message(hs[i].id0 as int + 256 * hs[i].id1 as int + 65536 * hs[i].id2 as int, ps[i])
    ensures (forall i :: 0 <= i < |fs| ==> ok(fs[i])) ==>
      Sound(Checked(ok)) && Split(Checked(ok), Woven(fs, gaps)) == Parsed(fs, [])
  {
    hide Whole, Sent, MessageOf;
    forall i | 0 <= i < |hs|
      ensures Whole(fs[i]) &&
        MessageOf(fs[i]) == Message(hs[i].id0 as int + 256 * hs[i].id1 as int + 65536 * hs[i].id2 as int, ps[i])
    {
      SentIsWhole(hs[i], ps[i]);
    }
    CleanStream(f => true, fs, gaps);
    if forall i :: 0 <= i < |fs| ==> ok(fs[i]) {
      CleanStream(ok, fs, gaps);
    }
  }

  method FindSync(s: seq<byte>) returns (i: int)
    ensures i < 0 ==> SYNC !in s
    ensures i >= 0 ==> i < |s| && s[i] == SYNC && SYNC !in s[..i]
  {
    for k := 0 to |s|
      invariant SYNC !in s[..k]
    {
      if s[k] == SYNC {
        return k;
      }
    }
    return -1;
  }

  class BenchReader {
    var buf: seq<byte>

    constructor ()
      ensures buf == []
    {
      buf := [];
    }

    /** Takes the next frame off the buffer, or trims it to what must wait. */
    method Next() returns (found: bool, f: seq<byte>)
      modifies this
      ensures Sound(Unchecked())
      ensures found ==> Whole(f) && |buf| < |old(buf)|
      ensures found ==> Split(Unchecked(), old(buf)) == Then(Parsed([f], []), Split(Unchecked(), buf))
      ensures !found ==> Split(Unchecked(), old(buf)) == Parsed([], buf)
    {
      UncheckedStable();
      hide Split, Checked, Unchecked, At, Sound, Stable, Whole, Then, NoteAll, Note;
      found, f := false, [];
      var i := FindSync(buf);
      if i < 0 {
        assert buf[..|buf|] == buf;
        NextWaits(buf, |buf|);
        buf := [];
        return;
      }
      if |buf| - i < HDR_LEN || |buf| - i < HDR_LEN + buf[i + 2] + CRC_LEN {
        NextWaits(buf, i);
        buf := buf[i..];
        return;
      }
      var total := HDR_LEN + buf[i + 2] + CRC_LEN;
      found, f := true, buf[i..i + total];
      NextTakes(buf, i, f);
      buf := buf[i + total..];
    }

    /** One chunk: yields every message it completes. */
    method Chunk(chunk: seq<byte>) returns (out: seq<Message>)
      modifies this
      ensures Sound(Unchecked())
      ensures var r := Split(Unchecked(), old(buf) + chunk);
        buf == r.rest && AllWhole(r.frames) && out == Messages(r.frames)
    {
      buf := buf + chunk;
      out := [];
      ghost var rule, start := Unchecked(), buf;
      ghost var frames: seq<seq<byte>> := [];
      UncheckedStable();
      ThenNothing([], Split(rule, start));
      assert Messages(frames) == [];
      hide Sound, Stable, Split, Unchecked, Messages, AllWhole, Then;
      while true
        invariant Split(rule, start) == Then(Parsed(frames, []), Split(rule, buf))
        invariant AllWhole(frames) && out == Messages(frames)
        decreases |buf|
      {
        var found, f := Next();
        if !found {
          ThenFrames(frames, [], buf);
          break;
        }
        ThenAssoc(Parsed(frames, []), Parsed([f], []), Split(rule, buf));
        ThenFrames(frames, [f], []);
        OneMessage(f);
        MessagesSplit(frames, [f]);
        frames := frames + [f];
        out := out + [Message(Id(f[7], f[8], f[9]), f[HDR_LEN..HDR_LEN + f[2]])];
      }
    }

    /** The whole generator: the messages depend only on the bytes received. */
    method IterFrames(transport: seq<seq<byte>>) returns (out: seq<Message>)
      requires buf == []
      modifies this
      ensures Sound(Unchecked())
      ensures var r := Split(Unchecked(), Flat(transport));
        buf == r.rest && |buf| < MAX_FRAME && AllWhole(r.frames) && out == Messages(r.frames)
    {
      ghost var rule := Unchecked();
      UncheckedStable();
      assert Split(rule, []) == Parsed([], []);
      hide Sound, Stable, Split, Messages, AllWhole, Unchecked;
      assert AllWhole([]) && Messages([]) == [];
      out := [];
      for i := 0 to |transport|
        invariant var r := Feed(rule, transport[..i]); buf == r.rest && AllWhole(r.frames) && out == Messages(r.frames)
      {
        ghost var a := Feed(rule, transport[..i]);
        var more := Chunk(transport[i]);
        MessagesSplit(a.frames, Split(rule, a.rest + transport[i]).frames);
        assert transport[..i + 1][..i] == transport[..i];
        out := out + more;
      }
      assert transport[..|transport|] == transport;
      ChunkingIrrelevant(rule, transport);
      LeftoverBounded(_ => true, Flat(transport));
    }
  }
}
