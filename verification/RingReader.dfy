/** The reader of the circular recording: keep the slots that carry this file's
    sentinel, order them by sequence number, and report the gaps. */
module RingReader {
  import opened Bytes
  import opened Generations
  import opened RingLog

  const SECTOR := 512
  const FRAME_LEN := SECTOR - 4
  const BLOCK_ROOM := FRAME_LEN - 16

  // ----- sectors and frames

  datatype Kind = Block(sid: byte, count: nat) | Session | Event | Unknown

  /** `number` is the sequence number, `tag` the session tag, `body` the rest. */
  datatype Frame = Frame(kind: Kind, number: nat, tag: byte, body: nat)

  datatype Sector = Sector(flags: byte, len: nat, frame: Frame)

  /** The record size of every declared stream. */
  type Streams = map<byte, nat>

  predicate Kept(x: Sector, sentinel: byte, streams: Streams) {
    && x.flags == sentinel && x.len == FRAME_LEN
    && match x.frame.kind
       case Block(sid, n) => sid in streams && n * streams[sid] <= BLOCK_ROOM
       case Session => true
       case Event => true
       case Unknown => false
  }

  /** The frames kept, in slot order. */
  function Collect(card: seq<Sector>, sentinel: byte, streams: Streams): seq<Frame> {
    if |card| == 0 then []
    else
      var x := card[|card| - 1];
      Collect(card[..|card| - 1], sentinel, streams) + (if Kept(x, sentinel, streams) then [x.frame] else [])
  }

  ghost predicate Sorted(fs: seq<Frame>) {
    forall i, j :: 0 <= i < j < |fs| ==> fs[i].number <= fs[j].number
  }

  /** Puts a frame after all that do not exceed it. */
  function Place(fs: seq<Frame>, f: Frame): (r: seq<Frame>)
    ensures multiset(r) == multiset(fs) + multiset{f}
  {
    if |fs| == 0 || fs[|fs| - 1].number <= f.number then fs + [f]
    else
      assert fs == fs[..|fs| - 1] + [fs[|fs| - 1]];
      Place(fs[..|fs| - 1], f) + [fs[|fs| - 1]]
  }

  lemma {:induction false} PlaceSorts(fs: seq<Frame>, f: Frame)
    requires Sorted(fs)
    ensures Sorted(Place(fs, f))
  {
    if |fs| == 0 || fs[|fs| - 1].number <= f.number {
    } else {
      var n := |fs| - 1;
      PlaceSorts(fs[..n], f);
      var r := Place(fs[..n], f);
      forall i | 0 <= i < |r| ensures r[i].number <= fs[n].number {
        assert r[i] in multiset(r);
        assert r[i] in multiset(fs[..n]) || r[i] == f;
        if r[i] != f {
          assert r[i] in fs[..n];
        }
      }
    }
  }

  /** Pairs of neighbours whose numbers are not consecutive. */
  function Gaps(fs: seq<Frame>): seq<(nat, nat)> {
    if |fs| < 2 then []
    else
      var a, b := fs[|fs| - 2].number, fs[|fs| - 1].number;
      Gaps(fs[..|fs| - 1]) + (if b != a + 1 then [(a, b)] else [])
  }

  lemma CollectNext(card: seq<Sector>, n: nat, sentinel: byte, streams: Streams)
    requires n < |card|
    ensures Collect(card[..n + 1], sentinel, streams) ==
      Collect(card[..n], sentinel, streams) + (if Kept(card[n], sentinel, streams) then [card[n].frame] else [])
  {
    assert card[..n + 1][..n] == card[..n];
  }

  method ReadSlots(card: seq<Sector>, sentinel: byte, streams: Streams) returns (frames: seq<Frame>)
    ensures Sorted(frames) && multiset(frames) == multiset(Collect(card, sentinel, streams))
  {
    frames := [];
    for slot := 0 to |card|
      invariant Sorted(frames) && multiset(frames) == multiset(Collect(card[..slot], sentinel, streams))
    {
      var x := card[slot];
      CollectNext(card, slot, sentinel, streams);
      hide Collect, Kept, Place, Sorted;
      if Kept(x, sentinel, streams) {
        PlaceSorts(frames, x.frame);
        frames := Place(frames, x.frame);
      }
    }
    assert card[..|card|] == card;
  }

  method FindGaps(frames: seq<Frame>) returns (gaps: seq<(nat, nat)>)
    ensures gaps == Gaps(frames)
  {
    gaps := [];
    for i := 0 to |frames|
      invariant gaps == Gaps(frames[..i])
    {
      assert frames[..i + 1][..i] == frames[..i];
      if i > 0 && frames[i].number != frames[i - 1].number + 1 {
        gaps := gaps + [(frames[i - 1].number, frames[i].number)];
      }
    }
    assert frames[..|frames|] == frames;
  }

  // ----- the bytes of a slot

  const T_BLOCK: byte := 0x02
  const T_EVENT: byte := 0x03
  const T_SESSION: byte := 0x04

  function Word16(s: seq<byte>, i: nat): nat
    requires i + 2 <= |s|
  {
    s[i] as int + s[i + 1] as int * 0x100
  }

  function Word32(s: seq<byte>, i: nat): nat
    requires i + 4 <= |s|
  {
    s[i] as int + s[i + 1] as int * 0x100 + s[i + 2] as int * 0x1_0000 + s[i + 3] as int * 0x100_0000
  }

  /** A slot as it is read; `name` stands for whatever is made of its bytes. */
  function Parse(s: seq<byte>, name: seq<byte> -> nat): Sector
    requires |s| == SECTOR
  {
    var kind :=
      if s[0] == T_BLOCK then Block(s[4], Word16(s, 6))
      else if s[0] == T_SESSION then Session
      else if s[0] == T_EVENT then Event
      else Unknown;
    Sector(s[1], Word16(s, 2), Frame(kind, Word32(s, 8), s[5], name(s)))
  }

  /** What the writer stamps on a prepared sector. */
  function Stamped(sec: seq<byte>, sentinel: byte, tag: byte, number: u32): (s: seq<byte>)
    requires |sec| == SECTOR
    ensures |s| == SECTOR
  {
    sec[1 := sentinel][5 := tag][8 := number % 0x100][9 := number / 0x100 % 0x100]
       [10 := number / 0x1_0000 % 0x100][11 := number / 0x100_0000]
  }

  lemma LowByteFirst(number: u32)
    ensures number == number % 0x100 + 0x100 * (number / 0x100 % 0x100) +
                      0x1_0000 * (number / 0x1_0000 % 0x100) + 0x100_0000 * (number / 0x100_0000)
  {
    var a := number / 0x100;
    var b := a / 0x100;
    assert number / 0x1_0000 == b && number / 0x100_0000 == b / 0x100;
  }

  /** A stamped sector reads back with the stamps, and otherwise as prepared. */
  lemma StampedReads(sec: seq<byte>, sentinel: byte, tag: byte, number: u32, name: seq<byte> -> nat)
    requires |sec| == SECTOR
    ensures var x, s := Parse(sec, name), Stamped(sec, sentinel, tag, number);
      Parse(s, name) == Sector(sentinel, x.len, Frame(x.frame.kind, number, tag, name(s))) && s[12..] == sec[12..]
  {
    var s := Stamped(sec, sentinel, tag, number);
    LowByteFirst(number);
  }

  /** The slots of the ring that the file reaches. */
  function Slots(data: seq<byte>, start: nat, count: nat): nat {
    if start + SECTOR * count <= |data| then count else if |data| < start then 0 else (|data| - start) / SECTOR
  }

  function SlotBytes(data: seq<byte>, start: nat, i: nat): (s: seq<byte>)
    requires start + SECTOR * (i + 1) <= |data|
    ensures |s| == SECTOR
  {
    data[start + SECTOR * i..start + SECTOR * (i + 1)]
  }

  lemma SlotFits(data: seq<byte>, start: nat, count: nat, i: nat)
    requires i < count
    ensures i < Slots(data, start, count) <==> start + SECTOR * (i + 1) <= |data|
  {}

  /** The ring as the reader sees it. */
  function Card(data: seq<byte>, start: nat, count: nat, name: seq<byte> -> nat): (card: seq<Sector>)
    ensures |card| == Slots(data, start, count)
  {
    seq(Slots(data, start, count), i requires 0 <= i < Slots(data, start, count) =>
      SlotFits(data, start, count, i); Parse(SlotBytes(data, start, i), name))
  }

  // ----- which slots are listed, and as what, in terms of their bytes

  /** A slot is listed if it carries the sentinel, is one frame long, and is a
      session, an event, or a block of a declared stream that fits. */
  ghost predicate Lists(s: seq<byte>, sentinel: byte, streams: Streams)
    requires |s| == 512
  {
    && s[1] == sentinel && s[2] as int + 256 * s[3] as int == 508
    && (s[0] == 0x03 || s[0] == 0x04 ||
        (s[0] == 0x02 && s[4] in streams && (s[6] as int + 256 * s[7] as int) * streams[s[4]] <= 492))
  }

  /** The kind a type byte stands for. */
  ghost function KindOf(s: seq<byte>): Kind
    requires |s| == 512
  {
    match s[0]
    case 0x02 => Block(s[4], s[6] as int + 256 * s[7] as int)
    case 0x03 => Event
    case 0x04 => Session
    case _ => Unknown
  }

  /** The frame a slot is listed as. */
  ghost predicate ReadAs(s: seq<byte>, name: seq<byte> -> nat, f: Frame)
    requires |s| == 512
  {
    && f.kind == KindOf(s) && f.tag == s[5] && f.body == name(s)
    && f.number == s[8] as int + 256 * s[9] as int + 65536 * s[10] as int + 16777216 * s[11] as int
  }

  lemma ListedExactly(s: seq<byte>, sentinel: byte, streams: Streams, name: seq<byte> -> nat)
    requires |s| == 512
    ensures Kept(Parse(s, name), sentinel, streams) <==> Lists(s, sentinel, streams)
    ensures ReadAs(s, name, Parse(s, name).frame)
  {}

  /** Slot `i` is in the file and listed as `f`. */
  ghost predicate ListedAt(data: seq<byte>, start: nat, count: nat, sentinel: byte, streams: Streams,
                           name: seq<byte> -> nat, i: nat, f: Frame) {
    i < count && start + 512 * (i + 1) <= |data| &&
    var s := data[start + 512 * i..start + 512 * (i + 1)]; Lists(s, sentinel, streams) && ReadAs(s, name, f)
  }

  /** The slots listed among the first `n`. */
  ghost function ListedSlots(data: seq<byte>, start: nat, n: nat, sentinel: byte, streams: Streams): nat {
    if n == 0 then 0
    else
      ListedSlots(data, start, n - 1, sentinel, streams) +
      (if start + 512 * n <= |data| && Lists(data[start + 512 * (n - 1)..start + 512 * n], sentinel, streams) then
        1 else 0)
  }

  lemma {:induction false} CollectedExactly(data: seq<byte>, start: nat, count: nat, n: nat, sentinel: byte,
                                            streams: Streams, name: seq<byte> -> nat, f: Frame)
    requires n <= Slots(data, start, count)
    ensures f in Collect(Card(data, start, count, name)[..n], sentinel, streams) <==>
      exists i: nat :: i < n && ListedAt(data, start, count, sentinel, streams, name, i, f)
    ensures |Collect(Card(data, start, count, name)[..n], sentinel, streams)| ==
      ListedSlots(data, start, n, sentinel, streams)
  {
    hide Card, Kept, Lists, ReadAs, ListedAt, Slots;
    var card := Card(data, start, count, name);
    if n == 0 {
      assert card[..0] == [];
    } else {
      CollectedExactly(data, start, count, n - 1, sentinel, streams, name, f);
      hide Collect;
      CollectNext(card, n - 1, sentinel, streams);
      SlotExactly(data, start, count, n - 1, sentinel, streams, name, f);
      var before := Collect(card[..n - 1], sentinel, streams);
      assert f in Collect(card[..n], sentinel, streams) <==>
        f in before || (Kept(card[n - 1], sentinel, streams) && card[n - 1].frame == f);
      assert (exists i: nat :: i < n && ListedAt(data, start, count, sentinel, streams, name, i, f)) <==>
        (exists i: nat :: i < n - 1 && ListedAt(data, start, count, sentinel, streams, name, i, f)) ||
        ListedAt(data, start, count, sentinel, streams, name, n - 1, f);
    }
  }

  /** One slot. */
  lemma SlotExactly(data: seq<byte>, start: nat, count: nat, i: nat, sentinel: byte, streams: Streams,
                    name: seq<byte> -> nat, f: Frame)
    requires i < Slots(data, start, count)
    ensures var x := Card(data, start, count, name)[i];
      Kept(x, sentinel, streams) && x.frame == f <==> ListedAt(data, start, count, sentinel, streams, name, i, f)
    ensures start + 512 * (i + 1) <= |data|
    ensures Kept(Card(data, start, count, name)[i], sentinel, streams) <==>
      Lists(data[start + 512 * i..start + 512 * (i + 1)], sentinel, streams)
  {
    SlotInside(data, start, count, i);
    var s := data[start + 512 * i..start + 512 * (i + 1)];
    ListedExactly(s, sentinel, streams, name);
    assert Card(data, start, count, name)[i] == Parse(s, name);
    hide Parse, Kept, Lists, Card;
  }

  lemma SlotInside(data: seq<byte>, start: nat, count: nat, i: nat)
    requires i < Slots(data, start, count)
    ensures i < count && start + 512 * (i + 1) <= |data|
  {}

  lemma {:induction false} NoneBeyond(data: seq<byte>, start: nat, count: nat, n: nat, sentinel: byte, streams: Streams)
    requires Slots(data, start, count) <= n <= count
    ensures ListedSlots(data, start, n, sentinel, streams) ==
      ListedSlots(data, start, Slots(data, start, count), sentinel, streams)
    decreases n
  {
    if Slots(data, start, count) < n {
      NoneBeyond(data, start, count, n - 1, sentinel, streams);
      SlotFits(data, start, count, n - 1);
    }
  }

  /** What `Collect` makes of the ring is exactly the slots listed. */
  lemma RingListed(data: seq<byte>, start: nat, count: nat, sentinel: byte, streams: Streams, name: seq<byte> -> nat)
    ensures var fs := Collect(Card(data, start, count, name), sentinel, streams);
      (forall f :: f in fs <==> exists i: nat :: ListedAt(data, start, count, sentinel, streams, name, i, f)) &&
      |fs| == ListedSlots(data, start, count, sentinel, streams)
  {
    var n := Slots(data, start, count);
    var card := Card(data, start, count, name);
    assert card[..n] == card;
    forall f
      ensures f in Collect(card, sentinel, streams) <==>
        exists i: nat :: ListedAt(data, start, count, sentinel, streams, name, i, f)
      ensures |Collect(card, sentinel, streams)| == ListedSlots(data, start, n, sentinel, streams)
    {
      CollectedExactly(data, start, count, n, sentinel, streams, name, f);
      if i: nat :| ListedAt(data, start, count, sentinel, streams, name, i, f) {
        SlotFits(data, start, count, i);
      }
    }
    NoneBeyond(data, start, count, count, sentinel, streams);
    var f := Frame(Unknown, 0, 0, 0);
    CollectedExactly(data, start, count, n, sentinel, streams, name, f);
  }

  /** Reads every slot of the ring in the file, whatever order they are in. */
  method Decode(data: seq<byte>, start: nat, count: nat, sentinel: byte, streams: Streams, name: seq<byte> -> nat)
    returns (frames: seq<Frame>, gaps: seq<(nat, nat)>)
    ensures Sorted(frames) && gaps == Gaps(frames)
    ensures multiset(frames) == multiset(Collect(Card(data, start, count, name), sentinel, streams))
    ensures forall f :: f in frames <==> exists i: nat :: ListedAt(data, start, count, sentinel, streams, name, i, f)
    ensures |frames| == ListedSlots(data, start, count, sentinel, streams)
  {
    ghost var all := Card(data, start, count, name);
    var card: seq<Sector> := [];
    for slot := 0 to count
      invariant slot <= |all| && card == all[..slot]
    {
      SlotFits(data, start, count, slot);
      var off := start + SECTOR * slot;
      if off + SECTOR > |data| {
        break;
      }
      card := card + [Parse(data[off..off + SECTOR], name)];
    }
    assert card == all;
    frames := ReadSlots(card, sentinel, streams);
    gaps := FindGaps(frames);
    hide Card, Collect, ListedAt, Sorted, Gaps, ListedSlots;
    RingListed(data, start, count, sentinel, streams, name);
    forall f ensures f in frames <==> f in Collect(all, sentinel, streams) {
      SameMembers(frames, Collect(all, sentinel, streams), f);
    }
    SameLength(frames, Collect(all, sentinel, streams));
  }

  lemma SameLength<T>(s: seq<T>, t: seq<T>)
    requires multiset(s) == multiset(t)
    ensures |s| == |t|
  {
    assert |multiset(s)| == |s| && |multiset(t)| == |t|;
  }

  // ----- permutations

  ghost predicate NoTwice<T>(s: seq<T>) {
    forall i, j :: 0 <= i < j < |s| ==> s[i] != s[j]
  }

  lemma {:induction false} OnceEach<T>(s: seq<T>, x: T)
    requires NoTwice(s)
    ensures multiset(s)[x] <= 1
  {
    if |s| > 0 {
      var n := |s| - 1;
      assert s == s[..n] + [s[n]];
      OnceEach(s[..n], x);
      if x == s[n] {
        assert x !in s[..n];
      }
    }
  }

  lemma TwiceCounts<T>(s: seq<T>, i: nat, j: nat)
    requires i < j < |s| && s[i] == s[j]
    ensures multiset(s)[s[i]] >= 2
  {
    assert s == s[..j] + s[j..];
    assert s[i] in s[..j] && s[j] in s[j..];
    assert multiset(s) == multiset(s[..j]) + multiset(s[j..]);
  }

  lemma PermutedNoTwice<T>(s: seq<T>, t: seq<T>)
    requires NoTwice(s) && multiset(s) == multiset(t)
    ensures NoTwice(t)
  {
    forall i, j | 0 <= i < j < |t| ensures t[i] != t[j] {
      if t[i] == t[j] {
        TwiceCounts(t, i, j);
        OnceEach(s, t[i]);
      }
    }
  }

  // ----- reading back what the ring holds

  /** The card shows the ring: a slot holding write k reads as a whole frame with
      that write's number and body, and any other slot is not kept. */
  ghost predicate Shows(card: seq<Sector>, r: Ring, sentinel: byte, streams: Streams) {
    |card| == |r.slots| && forall i :: 0 <= i < |card| ==>
      match r.slots[i]
      case Blank => !Kept(card[i], sentinel, streams)
      case Holds(k) => Kept(card[i], sentinel, streams) && k < |r.log| &&
                       card[i].frame.number == r.log[k] && card[i].frame.body == k
  }

  /** A prepared sector: whole, and of a kind the reader knows. */
  ghost predicate Prepared(sec: seq<byte>, streams: Streams) {
    && |sec| == 512 && sec[2] as int + 256 * sec[3] as int == 508
    && (sec[0] == 0x03 || sec[0] == 0x04 ||
        (sec[0] == 0x02 && sec[4] in streams && (sec[6] as int + 256 * sec[7] as int) * streams[sec[4]] <= 492))
  }

  /** The card after the writer: what it put into a slot is there, stamped; the
      rest does not pass for a frame of this file. */
  ghost predicate OnCard(slots: seq<seq<byte>>, r: Ring, secs: seq<seq<byte>>, tags: seq<byte>, sentinel: byte,
                         streams: Streams) {
    && |slots| == |r.slots| && |secs| == |tags| == |r.log|
    && (forall i :: 0 <= i < |slots| ==> |slots[i]| == SECTOR)
    && (forall k :: 0 <= k < |r.log| ==> Prepared(secs[k], streams) && r.log[k] < TWO32)
    && (forall i :: 0 <= i < |slots| ==>
          match r.slots[i]
          case Blank => !Lists(slots[i], sentinel, streams)
          case Holds(k) => k < |r.log| && slots[i] == Stamped(secs[k], sentinel, tags[k], r.log[k]))
  }

  /** Which write a number belongs to, counting from the end. */
  function IndexOf(log: seq<nat>, v: nat): nat {
    if |log| == 0 || log[|log| - 1] == v then (if |log| == 0 then 0 else |log| - 1) else IndexOf(log[..|log| - 1], v)
  }

  lemma {:induction false} IndexFound(log: seq<nat>, k: nat)
    requires k < |log| && Increasing(log)
    ensures IndexOf(log, log[k]) == k
    decreases |log|
  {
    var n := |log| - 1;
    if k < n {
      IndexFound(log[..n], k);
    }
  }

  /** A sector known by the number stamped on it. */
  function ByNumber(log: seq<nat>): seq<byte> -> nat {
    (s: seq<byte>) => if |s| == SECTOR then IndexOf(log, Word32(s, 8)) else 0
  }

  /** The frame the k-th write is read back as. */
  ghost function Written(r: Ring, secs: seq<seq<byte>>, tags: seq<byte>, k: nat): Frame
    requires k < |r.log| == |secs| == |tags| && |secs[k]| == SECTOR
  {
    Frame(KindOf(secs[k]), r.log[k], tags[k], k)
  }

  /** A slot that holds the k-th write reads as that write. */
  lemma SlotShows(r: Ring, secs: seq<seq<byte>>, tags: seq<byte>, sentinel: byte, streams: Streams, k: nat)
    requires k < |r.log| == |secs| == |tags| && Increasing(r.log) && Prepared(secs[k], streams) && r.log[k] < TWO32
    ensures var x := Parse(Stamped(secs[k], sentinel, tags[k], r.log[k]), ByNumber(r.log));
      Kept(x, sentinel, streams) && x.frame == Written(r, secs, tags, k)
  {
    StampedReads(secs[k], sentinel, tags[k], r.log[k], ByNumber(r.log));
    IndexFound(r.log, k);
    ListedExactly(secs[k], secs[k][1], streams, ByNumber(r.log));
  }

  /** Parsed, such a card shows the ring. */
  lemma WrittenShows(slots: seq<seq<byte>>, card: seq<Sector>, r: Ring, secs: seq<seq<byte>>, tags: seq<byte>,
                     sentinel: byte, streams: Streams)
    requires OnCard(slots, r, secs, tags, sentinel, streams) && Increasing(r.log)
    requires |card| == |slots| && forall i :: 0 <= i < |card| ==> card[i] == Parse(slots[i], ByNumber(r.log))
    ensures Shows(card, r, sentinel, streams)
    ensures forall i :: 0 <= i < |card| && Kept(card[i], sentinel, streams) ==>
      r.slots[i].Holds? && card[i].frame == Written(r, secs, tags, r.slots[i].k)
  {
    hide Parse, Stamped, Kept, ByNumber, Increasing, Lists, KindOf;
    forall i | 0 <= i < |card|
      ensures r.slots[i].Blank? ==> !Kept(card[i], sentinel, streams)
      ensures r.slots[i].Holds? ==>
        Kept(card[i], sentinel, streams) && card[i].frame == Written(r, secs, tags, r.slots[i].k)
    {
      ListedExactly(slots[i], sentinel, streams, ByNumber(r.log));
      if r.slots[i].Holds? {
        SlotShows(r, secs, tags, sentinel, streams, r.slots[i].k);
      }
    }
  }

  /** A frame is known by its body. */
  ghost predicate OneOfEach(fs: seq<Frame>) {
    forall f, g :: f in fs && g in fs && f.body == g.body ==> f == g
  }

  lemma {:induction false} CollectShows(card: seq<Sector>, r: Ring, sentinel: byte, streams: Streams, n: nat)
    requires Shows(card, r, sentinel, streams) && Distinct(r.slots, |r.log|) && n <= |card|
    ensures var fs := Collect(card[..n], sentinel, streams);
      NoTwice(fs) && forall k :: LiveUpTo(r, n, k) <==> exists f :: f in fs && f.body == k
    ensures var fs := Collect(card[..n], sentinel, streams);
      forall f :: f in fs ==> f.body < |r.log| && f.number == r.log[f.body]
    ensures OneOfEach(Collect(card[..n], sentinel, streams))
  {
    if n > 0 {
      CollectShows(card, r, sentinel, streams, n - 1);
      assert card[..n][..n - 1] == card[..n - 1];
      var fs0, fs := Collect(card[..n - 1], sentinel, streams), Collect(card[..n], sentinel, streams);
      var x := card[n - 1];
      forall k ensures LiveUpTo(r, n, k) <==> LiveUpTo(r, n - 1, k) || r.slots[n - 1] == Holds(k) {}
      if r.slots[n - 1].Holds? {
        var k := r.slots[n - 1].k;
        assert !LiveUpTo(r, n - 1, k);
        assert x.frame !in fs0;
        assert fs == fs0 + [x.frame];
        assert x.frame in fs;
        forall j ensures LiveUpTo(r, n, j) <==> exists f :: f in fs && f.body == j {
          if LiveUpTo(r, n - 1, j) {
            var f :| f in fs0 && f.body == j;
            assert f in fs;
          }
          if f :| f in fs && f.body == j {
            assert f in fs0 || f == x.frame;
          }
        }
      } else {
        assert fs == fs0;
      }
    }
  }

  ghost predicate InWriteOrder(fs: seq<Frame>) {
    forall i, j :: 0 <= i < j < |fs| ==> fs[i].body < fs[j].body
  }

  /** The frames are exactly the writes still in the ring, each with its own
      number. */
  ghost predicate Survivors(fs: seq<Frame>, r: Ring) {
    && (forall k :: Live(r, k) <==> exists f :: f in fs && f.body == k)
    && (forall f :: f in fs ==> f.body < |r.log| && f.number == r.log[f.body])
  }

  lemma SameMembers<T>(s: seq<T>, t: seq<T>, x: T)
    requires multiset(s) == multiset(t)
    ensures x in s <==> x in t
  {
    assert x in s <==> x in multiset(s);
    assert x in t <==> x in multiset(t);
  }

  lemma PermutedSurvivors(r: Ring, cs: seq<Frame>, fs: seq<Frame>)
    requires multiset(fs) == multiset(cs) && NoTwice(cs) && OneOfEach(cs) && Survivors(cs, r)
    ensures NoTwice(fs) && OneOfEach(fs) && Survivors(fs, r)
  {
    PermutedNoTwice(cs, fs);
    hide NoTwice;
    forall f ensures f in fs <==> f in cs {
      SameMembers(fs, cs, f);
    }
    assert OneOfEach(fs);
    forall k ensures Live(r, k) <==> exists f :: f in fs && f.body == k {
      if f :| f in cs && f.body == k {
        assert f in fs;
      }
      if f :| f in fs && f.body == k {
        assert f in cs;
      }
    }
  }

  lemma SortedSurvivors(r: Ring, fs: seq<Frame>)
    requires Increasing(r.log) && Sorted(fs) && NoTwice(fs) && OneOfEach(fs) && Survivors(fs, r)
    ensures InWriteOrder(fs)
  {}

  /** Whatever the power did, sorting by number gives back exactly the surviving
      writes in the order they were written. */
  lemma SortedIsWriteOrder(n: nat, run: seq<Label>, r: Ring, card: seq<Sector>, sentinel: byte, streams: Streams,
                           fs: seq<Frame>)
    requires n > 0 && Reaches(Created(n), run, r, SEQ_RESUME_MARGIN)
    requires Shows(card, r, sentinel, streams)
    requires Sorted(fs) && multiset(fs) == multiset(Collect(card, sentinel, streams))
    ensures InWriteOrder(fs) && Survivors(fs, r)
  {
    hide Reaches, Cursor, Filled, Jumps, Kept, Shows, RingLog.Tail, Increasing, Distinct, Collect, Sorted, NoTwice,
      OneOfEach, InWriteOrder, LiveUpTo;
    CreatedInv(n, SEQ_RESUME_MARGIN);
    RunKeepsInv(Created(n), run, r, SEQ_RESUME_MARGIN);
    CollectShows(card, r, sentinel, streams, |card|);
    assert card[..|card|] == card;
    ShowsLength(card, r, sentinel, streams);
    PermutedSurvivors(r, Collect(card, sentinel, streams), fs);
    SortedSurvivors(r, fs);
  }

  lemma ShowsLength(card: seq<Sector>, r: Ring, sentinel: byte, streams: Streams)
    requires Shows(card, r, sentinel, streams)
    ensures |card| == |r.slots|
  {}

  // ----- gaps

  lemma {:induction false} GapListed(fs: seq<Frame>, i: nat)
    requires i + 1 < |fs| && fs[i + 1].number != fs[i].number + 1
    ensures (fs[i].number, fs[i + 1].number) in Gaps(fs)
    decreases |fs|
  {
    var n := |fs| - 1;
    if i + 1 < n {
      GapListed(fs[..n], i);
    }
  }

  /** Exactly the neighbours whose numbers are not consecutive. */
  lemma {:induction false} GapsExactly(fs: seq<Frame>, a: nat, b: nat)
    ensures (a, b) in Gaps(fs) <==>
      exists i :: 0 <= i < |fs| - 1 && fs[i].number == a && fs[i + 1].number == b && b != a + 1
  {
    if |fs| >= 2 {
      var n := |fs| - 1;
      var front := fs[..n];
      GapsExactly(front, a, b);
      if i :| 0 <= i < n - 1 && front[i].number == a && front[i + 1].number == b && b != a + 1 {
        assert fs[i].number == a && fs[i + 1].number == b;
      }
      if i :| 0 <= i < n && fs[i].number == a && fs[i + 1].number == b && b != a + 1 {
        GapListed(fs, i);
      }
    }
  }

  lemma {:induction false} NoGapListed(fs: seq<Frame>)
    requires forall i :: 0 <= i < |fs| - 1 ==> fs[i + 1].number == fs[i].number + 1
    ensures Gaps(fs) == []
  {
    if |fs| >= 2 {
      NoGapListed(fs[..|fs| - 1]);
    }
  }

  /** The last frame before boundary `c`, with the first at or after it next. */
  lemma {:induction false} Boundary(fs: seq<Frame>, c: nat) returns (i: nat)
    requires |fs| > 0 && fs[0].body < c && c <= fs[|fs| - 1].body
    ensures i + 1 < |fs| && fs[i].body < c <= fs[i + 1].body
    decreases |fs|
  {
    var n := |fs| - 1;
    if fs[n - 1].body < c {
      i := n - 1;
    } else {
      i := Boundary(fs[..n], c);
    }
  }

  /** Something survives from before the c-th write, and something from it on. */
  ghost predicate BothSides(r: Ring, c: nat) {
    (exists k: nat :: k < c && Live(r, k)) && (exists k: nat :: k >= c && Live(r, k))
  }

  lemma Find(fs: seq<Frame>, r: Ring, k: nat) returns (i: nat)
    requires Survivors(fs, r) && Live(r, k)
    ensures i < |fs| && fs[i].body == k
  {
    var f :| f in fs && f.body == k;
    i :| i < |fs| && fs[i] == f;
  }

  /** Every power cut with survivors on both sides shows up as a reported gap
      between the two frames next to it, provided the hint was never as much as
      the whole margin behind. */
  lemma CutShowsAsGap(n: nat, run: seq<Label>, r: Ring, b: nat, fs: seq<Frame>, c: nat) returns (i: nat)
    requires n > 0 && b < SEQ_RESUME_MARGIN && Reaches(Created(n), run, r, b) && c in r.cuts
    requires InWriteOrder(fs) && Survivors(fs, r)
    requires BothSides(r, c)
    ensures i + 1 < |fs| && fs[i].body < c <= fs[i + 1].body
    ensures (fs[i].number, fs[i + 1].number) in Gaps(fs)
    ensures fs[i].number + 1 < fs[i + 1].number
  {
    CreatedInv(n, b);
    RunKeepsInv(Created(n), run, r, b);
    hide Reaches, Live, Gaps;
    Straddles(r, fs, c);
    i := Boundary(fs, c);
    var f, g := fs[i], fs[i + 1];
    assert f in fs && g in fs;
    assert r.log[f.body] + 1 + SEQ_RESUME_MARGIN - b <= SeqAt(r, c);
    assert SeqAt(r, c) <= r.log[g.body];
    GapListed(fs, i);
  }

  lemma Straddles(r: Ring, fs: seq<Frame>, c: nat)
    requires InWriteOrder(fs) && Survivors(fs, r)
    requires BothSides(r, c)
    ensures |fs| > 0 && fs[0].body < c <= fs[|fs| - 1].body
  {
    var k: nat :| k < c && Live(r, k);
    var m: nat :| m >= c && Live(r, m);
    hide Live;
    var i := Find(fs, r, k);
    var j := Find(fs, r, m);
    assert i == 0 || fs[0].body < fs[i].body;
    assert j == |fs| - 1 || fs[j].body < fs[|fs| - 1].body;
  }

  lemma LiveBetween(r: Ring, a: nat, k: nat, b: nat)
    requires Unbroken(r) && Live(r, a) && Live(r, b) && a < k < b
    ensures Live(r, k)
  {
    var i :| 0 <= i < |r.slots| && r.slots[i] == Holds(a);
    var j :| 0 <= j < |r.slots| && r.slots[j] == Holds(b);
    assert r.slots[i] == Expected(r, i) && r.slots[j] == Expected(r, j);
    var m := if k >= Lap(r) then k - Lap(r) else k + |r.slots| - Lap(r);
    assert r.slots[m] == Expected(r, m) == Holds(k);
  }

  /** Without a power cut no gap is reported, however often the ring has wrapped. */
  lemma NoCutNoGapReported(n: nat, run: seq<Label>, r: Ring, fs: seq<Frame>)
    requires n > 0 && NoCut(run) && Steps(Created(n), run, r)
    requires InWriteOrder(fs) && Survivors(fs, r)
    ensures Gaps(fs) == []
  {
    NoCutNoGap(Created(n), run, r);
    hide Steps, Live, Unbroken, Survivors, InWriteOrder;
    forall i | 0 <= i < |fs| - 1 ensures fs[i + 1].number == fs[i].number + 1 {
      NoneMissing(r, fs, i);
    }
    NoGapListed(fs);
  }

  lemma NoneMissing(r: Ring, fs: seq<Frame>, i: nat)
    requires Unbroken(r) && InWriteOrder(fs) && Survivors(fs, r) && i + 1 < |fs|
    ensures fs[i + 1].number == fs[i].number + 1
  {
    hide Live;
    var f, g := fs[i], fs[i + 1];
    assert f in fs && g in fs;
    assert Live(r, f.body) && Live(r, g.body) && f.body < g.body;
    if f.body + 1 < g.body {
      LiveBetween(r, f.body, f.body + 1, g.body);
      var j := Find(fs, r, f.body + 1);
      assert false;
    }
  }

  /** The frames are from the last `n` writes and sixteen per cut, and of those at
      most sixteen per cut are missing. */
  ghost predicate WithinLoss(fs: seq<Frame>, r: Ring, n: nat) {
    var c := 16 * |r.cuts|;
    (forall f :: f in fs ==> f.body in Latest(r, n + c)) && |Lost(r, n + c)| <= c
  }

  /** The gap between frame `i` and the next is reported, and is where cut `c` was. */
  ghost predicate ShownAt(fs: seq<Frame>, c: nat, i: int) {
    0 <= i < |fs| - 1 && fs[i].body < c <= fs[i + 1].body && (fs[i].number, fs[i + 1].number) in Gaps(fs)
  }

  /** Every cut with survivors on both sides shows. */
  ghost predicate CutsVisible(fs: seq<Frame>, r: Ring) {
    forall c :: c in r.cuts && BothSides(r, c) ==> exists i :: ShownAt(fs, c, i)
  }

  /** Everything at once for a recorder whose hints all reach the card: a decoded
      file lists exactly the surviving writes in write order, all from the last
      ring-and-sixteen-per-cut writes and all but sixteen per cut of those, with
      every cut visible. */
  lemma HealthyRecording(n: nat, run: seq<Label>, r: Ring, card: seq<Sector>, sentinel: byte, streams: Streams,
                         fs: seq<Frame>)
    requires n > 0 && AllDurable(run) && Steps(Created(n), run, r)
    requires Shows(card, r, sentinel, streams)
    requires Sorted(fs) && multiset(fs) == multiset(Collect(card, sentinel, streams))
    ensures InWriteOrder(fs) && Survivors(fs, r) && WithinLoss(fs, r, n) && CutsVisible(fs, r)
  {
    hide Reaches, Shows, Collect, Sorted, InWriteOrder, Survivors, Gaps, BothSides, Latest, Lost, Live;
    DurableHintsBound(Created(n), run, r);
    ReachesMore(Created(n), run, r, HDR_SYNC_FRAMES, SEQ_RESUME_MARGIN);
    SortedIsWriteOrder(n, run, r, card, sentinel, streams, fs);
    CutCosts(n, run, r, HDR_SYNC_FRAMES);
    SurvivorsLive(fs, r);
    forall c | c in r.cuts && BothSides(r, c) ensures exists i :: ShownAt(fs, c, i) {
      var i := CutShowsAsGap(n, run, r, HDR_SYNC_FRAMES, fs, c);
      assert ShownAt(fs, c, i);
    }
  }

  /** The bytes of the ring's slots in the file. */
  function RingBytes(data: seq<byte>, start: nat, n: nat): (slots: seq<seq<byte>>)
    requires start + SECTOR * n <= |data|
    ensures |slots| == n
  {
    seq(n, i requires 0 <= i < n => SlotBytes(data, start, i))
  }

  lemma CardIsParsed(data: seq<byte>, start: nat, n: nat, name: seq<byte> -> nat)
    requires start + SECTOR * n <= |data|
    ensures var slots, card := RingBytes(data, start, n), Card(data, start, n, name);
      |card| == n && forall i :: 0 <= i < n ==> |slots[i]| == SECTOR && card[i] == Parse(slots[i], name)
  {
    hide Parse;
  }

  lemma {:induction false} CollectedAreKept(card: seq<Sector>, sentinel: byte, streams: Streams, f: Frame)
    requires f in Collect(card, sentinel, streams)
    ensures exists i :: 0 <= i < |card| && Kept(card[i], sentinel, streams) && card[i].frame == f
  {
    var n := |card| - 1;
    if Kept(card[n], sentinel, streams) && card[n].frame == f {
    } else {
      CollectedAreKept(card[..n], sentinel, streams, f);
      var i :| 0 <= i < n && Kept(card[..n][i], sentinel, streams) && card[..n][i].frame == f;
      assert card[i] == card[..n][i];
    }
  }

  /** The same from the bytes of the file to what `Decode` returns: every frame
      listed is one that was written, with the kind, number and tag it was written
      with, and all of the above holds of the list. */
  lemma HealthyFile(n: nat, run: seq<Label>, r: Ring, data: seq<byte>, start: nat, secs: seq<seq<byte>>,
                    tags: seq<byte>, sentinel: byte, streams: Streams, fs: seq<Frame>)
    requires n > 0 && AllDurable(run) && Steps(Created(n), run, r) && start + SECTOR * n <= |data|
    requires OnCard(RingBytes(data, start, n), r, secs, tags, sentinel, streams)
    requires Sorted(fs)
    requires multiset(fs) == multiset(Collect(Card(data, start, n, ByNumber(r.log)), sentinel, streams))
    ensures forall f :: f in fs ==> f.body < |r.log| && f == Written(r, secs, tags, f.body)
    ensures InWriteOrder(fs) && Survivors(fs, r) && WithinLoss(fs, r, n) && CutsVisible(fs, r)
  {
    var slots, card := RingBytes(data, start, n), Card(data, start, n, ByNumber(r.log));
    DurableHintsBound(Created(n), run, r);
    CreatedInv(n, HDR_SYNC_FRAMES);
    RunKeepsInv(Created(n), run, r, HDR_SYNC_FRAMES);
    CardIsParsed(data, start, n, ByNumber(r.log));
    hide Reaches, Steps, Collect, Sorted, InWriteOrder, Survivors, WithinLoss, CutsVisible, Parse, Kept, ByNumber,
      RingBytes, Card, Increasing, Shows;
    WrittenShows(slots, card, r, secs, tags, sentinel, streams);
    HealthyRecording(n, run, r, card, sentinel, streams, fs);
    forall f | f in fs ensures f.body < |r.log| && f == Written(r, secs, tags, f.body) {
      SameMembers(fs, Collect(card, sentinel, streams), f);
      CollectedAreKept(card, sentinel, streams, f);
    }
  }

  lemma SurvivorsLive(fs: seq<Frame>, r: Ring)
    requires Survivors(fs, r)
    ensures forall f :: f in fs ==> Live(r, f.body)
  {
    hide Live;
  }

  lemma {:induction false} ReachesMore(r: Ring, run: seq<Label>, r': Ring, b: nat, more: nat)
    requires b <= more && Reaches(r, run, r', b)
    ensures Reaches(r, run, r', more)
    decreases |run|
  {
    if |run| > 0 {
      ReachesMore(Next(r, run[0]), run[1..], r', b, more);
    }
  }
}
