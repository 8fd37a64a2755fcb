/** Reassembling a file from chunks over a lossy link. */
module Download {
  import opened Bytes

  datatype Span = Span(off: nat, len: nat) {
    predicate Covers(p: nat) {
      off <= p < off + len
    }
  }

  // ----- the sorted list of received spans

  predicate Before(a: Span, b: Span) {
    a.off < b.off || (a.off == b.off && a.len <= b.len)
  }

  ghost predicate Sorted(h: seq<Span>) {
    forall i, j :: 0 <= i < j < |h| ==> Before(h[i], h[j])
  }

  /** Appending and sorting again. */
  function Insert(h: seq<Span>, x: Span): (r: seq<Span>)
    ensures multiset(r) == multiset(h) + multiset{x}
  {
    if |h| == 0 || Before(h[|h| - 1], x) then h + [x]
    else
      assert h == h[..|h| - 1] + [h[|h| - 1]];
      Insert(h[..|h| - 1], x) + [h[|h| - 1]]
  }

  lemma InMultiset<T>(s: seq<T>, x: T)
    ensures x in s <==> x in multiset(s)
  {}

  lemma InsertIn(h: seq<Span>, x: Span, y: Span)
    ensures y in Insert(h, x) <==> y in h || y == x
  {
    InMultiset(Insert(h, x), y);
    InMultiset(h, y);
  }

  lemma {:induction false} InsertSorts(h: seq<Span>, x: Span)
    requires Sorted(h)
    ensures Sorted(Insert(h, x))
  {
    if |h| == 0 || Before(h[|h| - 1], x) {
    } else {
      var n := |h| - 1;
      InsertSorts(h[..n], x);
      var r := Insert(h[..n], x);
      forall i | 0 <= i < |r| ensures Before(r[i], h[n]) {
        InsertIn(h[..n], x, r[i]);
        assert r[i] in r;
      }
    }
  }

  // ----- the cursor

  ghost predicate Covered(h: seq<Span>, p: nat) {
    exists s :: s in h && s.Covers(p)
  }

  /** `c` is the length of the longest prefix covered by the spans. */
  ghost predicate Frontier(h: seq<Span>, c: nat) {
    (forall p: nat :: p < c ==> Covered(h, p)) && !Covered(h, c)
  }

  lemma FrontierUnique(h: seq<Span>, c: nat, d: nat)
    requires Frontier(h, c) && Frontier(h, d)
    ensures c == d
  {}

  function Advance(s: Span, c: nat): nat {
    if s.off <= c < s.off + s.len || s.off == c then s.off + s.len else c
  }

  /** One pass over the list. */
  function Pass(h: seq<Span>, c: nat): nat {
    if |h| == 0 then c else Advance(h[|h| - 1], Pass(h[..|h| - 1], c))
  }

  lemma {:induction false} PassFinds(h: seq<Span>, c: nat)
    requires Sorted(h)
    ensures Pass(h, c) >= c
    ensures forall s :: s in h ==> !s.Covers(Pass(h, c))
    ensures forall p: nat :: c <= p < Pass(h, c) ==> Covered(h, p)
  {
    if |h| > 0 {
      var n := |h| - 1;
      var front, last := h[..n], h[n];
      PassFinds(front, c);
      var c0, c1 := Pass(front, c), Pass(h, c);
      forall s | s in h ensures !s.Covers(c1) {
        if s != last {
          assert s in front;
        }
      }
      forall p: nat | c <= p < c1 ensures Covered(h, p) {
        if p < c0 {
          assert Covered(front, p);
          var s :| s in front && s.Covers(p);
          assert s in h;
        } else {
          assert last in h && last.Covers(p);
        }
      }
    }
  }

  // ----- the transfer

  /** What the link can deliver; `Other` is a message of another session. */
  datatype Event = Other | Reject | Info(total: nat) | Data(off: nat, len: nat, data: seq<byte>) {
    function Extent(): Span
      requires Data?
    {
      Span(off, len)
    }

    /** As many bytes as the length field says, or as there are. */
    function Payload(): seq<byte>
      requires Data?
    {
      if len <= |data| then data[..len] else data
    }
  }

  datatype State = State(open: bool, rx: seq<byte>, have: seq<Span>, cursor: nat)

  const START := State(false, [], [], 0)

  function Zeros(n: nat): seq<byte> {
    seq(n, i => 0)
  }

  /** The buffer with the chunk in place of the bytes it extends over. */
  function Stored(rx: seq<byte>, e: Event): seq<byte>
    requires e.Data? && e.off + e.len <= |rx|
  {
    rx[..e.off] + e.Payload() + rx[e.off + e.len..]
  }

  predicate Fits(st: State, e: Event) {
    st.open && e.Data? && e.off + e.len <= |st.rx|
  }

  /** What one message does.  An INFO always starts a new buffer, and leaves the
      spans and the cursor as they were. */
  function Receive(st: State, e: Event): State {
    if e.Info? then st.(open := true, rx := Zeros(e.total))
    else if Fits(st, e) then
      var have := Insert(st.have, e.Extent());
      State(true, Stored(st.rx, e), have, Pass(have, st.cursor))
    else st
  }

  function Run(evs: seq<Event>): State {
    if |evs| == 0 then START else Receive(Run(evs[..|evs| - 1]), evs[|evs| - 1])
  }

  /** The messages agree with the file being fetched; they may be lost, repeated,
      overlapping and in any order. */
  ghost predicate Agrees(evs: seq<Event>, file: seq<byte>) {
    forall e :: e in evs ==>
      (e.Info? ==> e.total == |file|) &&
      (e.Data? && e.off + e.len <= |file| ==> e.Payload() == file[e.off..e.off + e.len])
  }

  /** Some chunk accepted by message `k` or later covers `p`. */
  ghost predicate GotSince(evs: seq<Event>, k: nat, p: nat) {
    exists i :: k <= i < |evs| && Fits(Run(evs[..i]), evs[i]) && evs[i].Extent().Covers(p)
  }

  /** The INFO that started the current buffer, if there was one. */
  function LastInfo(evs: seq<Event>): nat {
    if |evs| == 0 then 0 else if evs[|evs| - 1].Info? then |evs| - 1 else LastInfo(evs[..|evs| - 1])
  }

  lemma GotSinceNext(evs: seq<Event>, e: Event, k: nat, p: nat)
    requires k <= |evs|
    ensures GotSince(evs + [e], k, p) <==> GotSince(evs, k, p) || (Fits(Run(evs), e) && e.Extent().Covers(p))
  {
    var all := evs + [e];
    assert all[..|evs|] == evs;
    assert forall i :: 0 <= i < |evs| ==> all[..i] == evs[..i] && all[i] == evs[i];
    if GotSince(evs, k, p) {
      var i :| k <= i < |evs| && Fits(Run(evs[..i]), evs[i]) && evs[i].Extent().Covers(p);
      assert Fits(Run(all[..i]), all[i]);
    }
    if Fits(Run(evs), e) && e.Extent().Covers(p) {
      assert Fits(Run(all[..|evs|]), all[|evs|]);
    }
  }

  /** The list is sorted and covers exactly what the accepted chunks cover, and
      the cursor is the longest covered prefix. */
  ghost predicate CursorInv(evs: seq<Event>, file: seq<byte>) {
    var st := Run(evs);
    && Sorted(st.have) && Frontier(st.have, st.cursor)
    && (forall p: nat :: Covered(st.have, p) <==> GotSince(evs, 0, p))
    && (forall p: nat :: Covered(st.have, p) ==> p < |file|)
  }

  /** The byte at `p` is the file's if received since message `k`, else zero. */
  ghost predicate ByteRight(rx: seq<byte>, evs: seq<Event>, k: nat, file: seq<byte>, p: nat)
    requires p < |rx| && p < |file|
  {
    rx[p] == (if GotSince(evs, k, p) then file[p] else 0)
  }

  ghost predicate AllRight(rx: seq<byte>, evs: seq<Event>, k: nat, file: seq<byte>) {
    forall p: nat :: p < |rx| && p < |file| ==> ByteRight(rx, evs, k, file, p)
  }

  ghost predicate NothingGot(evs: seq<Event>) {
    forall p: nat :: !GotSince(evs, 0, p)
  }

  /** Every byte of the buffer is right with respect to the last INFO. */
  ghost predicate BufferInv(evs: seq<Event>, file: seq<byte>) {
    var st := Run(evs);
    && LastInfo(evs) <= |evs|
    && (st.open ==> |st.rx| == |file|)
    && (!st.open ==> st.rx == [] && NothingGot(evs))
    && AllRight(st.rx, evs, LastInfo(evs), file)
  }

  lemma InsertCovered(h: seq<Span>, x: Span, p: nat)
    ensures Covered(Insert(h, x), p) <==> Covered(h, p) || x.Covers(p)
  {}

  /** One pass over the sorted list is enough, from any covered prefix. */
  lemma PassReachesFrontier(h: seq<Span>, x: Span, c: nat)
    requires Sorted(h) && Frontier(h, c)
    ensures Sorted(Insert(h, x)) && Frontier(Insert(h, x), Pass(Insert(h, x), c)) && Pass(Insert(h, x), c) >= c
  {
    InsertSorts(h, x);
    var g := Insert(h, x);
    PassFinds(g, c);
    forall p: nat | p < Pass(g, c) ensures Covered(g, p) {
      if p < c {
        InsertCovered(h, x, p);
      }
    }
  }

  lemma CursorStep(evs: seq<Event>, e: Event, file: seq<byte>)
    requires CursorInv(evs, file) && BufferInv(evs, file)
    ensures CursorInv(evs + [e], file) && Run(evs + [e]).cursor >= Run(evs).cursor
  {
    hide Sorted, Frontier;
    var st := Run(evs);
    assert (evs + [e])[..|evs|] == evs;
    if Fits(st, e) {
      PassReachesFrontier(st.have, e.Extent(), st.cursor);
    }
    forall p: nat
      ensures Covered(Run(evs + [e]).have, p) <==> GotSince(evs + [e], 0, p)
      ensures Covered(Run(evs + [e]).have, p) ==> p < |file|
    {
      GotSinceNext(evs, e, 0, p);
      if Fits(st, e) {
        InsertCovered(st.have, e.Extent(), p);
      }
    }
  }

  lemma NothingYet(evs: seq<Event>, e: Event, p: nat)
    requires !Fits(Run(evs), e)
    ensures !GotSince(evs + [e], |evs|, p)
  {}

  /** Storing a chunk that agrees with the file. */
  lemma StoredAt(rx: seq<byte>, e: Event, file: seq<byte>, p: nat)
    requires e.Data? && e.off + e.len <= |rx| == |file| && Agrees([e], file) && p < |rx|
    ensures |Stored(rx, e)| == |rx|
    ensures Stored(rx, e)[p] == (if e.Extent().Covers(p) then file[p] else rx[p])
  {
    assert e in [e];
    var d := e.Payload();
    hide Event.Payload;
    assert |d| == e.len;
    if e.Extent().Covers(p) {
      assert d[p - e.off] == file[p];
    }
  }

  /** One byte after an INFO ... */
  lemma ByteOpened(evs: seq<Event>, e: Event, file: seq<byte>, p: nat)
    requires e.Info? && p < e.total && p < |file|
    ensures |Zeros(e.total)| == e.total && ByteRight(Zeros(e.total), evs + [e], |evs|, file, p)
  {
    NothingYet(evs, e, p);
    hide GotSince, Run;
  }

  /** ... after a chunk that is stored ... */
  lemma ByteStored(rx: seq<byte>, evs: seq<Event>, e: Event, k: nat, file: seq<byte>, p: nat)
    requires rx == Run(evs).rx && k <= |evs| && Fits(Run(evs), e) && |rx| == |file| && Agrees([e], file) && p < |rx|
    requires ByteRight(rx, evs, k, file, p)
    ensures |Stored(rx, e)| == |rx| && ByteRight(Stored(rx, e), evs + [e], k, file, p)
  {
    GotSinceNext(evs, e, k, p);
    StoredAt(rx, e, file, p);
    hide GotSince, Run, Stored, Agrees;
  }

  /** ... and after anything else. */
  lemma ByteKept(rx: seq<byte>, evs: seq<Event>, e: Event, k: nat, file: seq<byte>, p: nat)
    requires k <= |evs| && !Fits(Run(evs), e) && p < |rx| && p < |file| && ByteRight(rx, evs, k, file, p)
    ensures ByteRight(rx, evs + [e], k, file, p)
  {
    GotSinceNext(evs, e, k, p);
    hide GotSince, Run;
  }

  lemma AllOpened(evs: seq<Event>, e: Event, file: seq<byte>)
    requires e.Info?
    ensures AllRight(Zeros(e.total), evs + [e], |evs|, file)
  {
    hide ByteRight, Run, GotSince;
    forall p: nat | p < |Zeros(e.total)| && p < |file| ensures ByteRight(Zeros(e.total), evs + [e], |evs|, file, p) {
      ByteOpened(evs, e, file, p);
    }
  }

  lemma AllStored(rx: seq<byte>, evs: seq<Event>, e: Event, k: nat, file: seq<byte>)
    requires rx == Run(evs).rx && k <= |evs| && Fits(Run(evs), e) && |rx| == |file| && Agrees([e], file)
    requires AllRight(rx, evs, k, file)
    ensures AllRight(Stored(rx, e), evs + [e], k, file)
  {
    StoredLength(rx, e, file);
    hide ByteRight, Run, GotSince, Stored, Agrees;
    forall p: nat | p < |rx| ensures ByteRight(Stored(rx, e), evs + [e], k, file, p) {
      assert ByteRight(rx, evs, k, file, p);
      ByteStored(rx, evs, e, k, file, p);
    }
  }

  lemma AllKept(rx: seq<byte>, evs: seq<Event>, e: Event, k: nat, file: seq<byte>)
    requires k <= |evs| && !Fits(Run(evs), e) && AllRight(rx, evs, k, file)
    ensures AllRight(rx, evs + [e], k, file)
  {
    hide ByteRight, Run, GotSince;
    forall p: nat | p < |rx| && p < |file| ensures ByteRight(rx, evs + [e], k, file, p) {
      assert ByteRight(rx, evs, k, file, p);
      ByteKept(rx, evs, e, k, file, p);
    }
  }

  lemma NothingGotYet(evs: seq<Event>, e: Event)
    requires NothingGot(evs) && !Fits(Run(evs), e)
    ensures NothingGot(evs + [e])
  {
    hide GotSince, Run;
    forall p: nat ensures !GotSince(evs + [e], 0, p) {
      GotSinceNext(evs, e, 0, p);
    }
  }

  lemma BufferStep(evs: seq<Event>, e: Event, file: seq<byte>)
    requires BufferInv(evs, file) && Agrees([e], file)
    ensures BufferInv(evs + [e], file)
  {
    assert e in [e];
    RunOn(evs, e);
    var st, k := Run(evs), LastInfo(evs);
    hide Run, LastInfo, AllRight, NothingGot, Stored, Insert, Pass, Zeros;
    if e.Info? {
      ZerosLength(e.total);
      AllOpened(evs, e, file);
    } else if Fits(st, e) {
      StoredLength(st.rx, e, file);
      AllStored(st.rx, evs, e, k, file);
    } else {
      AllKept(st.rx, evs, e, k, file);
      if !st.open {
        NothingGotYet(evs, e);
      }
    }
  }

  lemma RunOn(evs: seq<Event>, e: Event)
    ensures Run(evs + [e]) == Receive(Run(evs), e)
    ensures LastInfo(evs + [e]) == (if e.Info? then |evs| else LastInfo(evs))
  {}

  lemma ZerosLength(n: nat)
    ensures |Zeros(n)| == n
  {}

  lemma StoredLength(rx: seq<byte>, e: Event, file: seq<byte>)
    requires e.Data? && e.off + e.len <= |rx| == |file| && Agrees([e], file)
    ensures |Stored(rx, e)| == |rx|
  {
    assert e in [e];
  }

  /** The whole story of any run that agrees with the file. */
  lemma {:induction false} RunKeeps(evs: seq<Event>, file: seq<byte>)
    requires Agrees(evs, file)
    ensures CursorInv(evs, file) && BufferInv(evs, file)
  {
    if |evs| == 0 {
      assert forall p: nat :: !Covered([], p);
    } else {
      var n := |evs| - 1;
      RunKeeps(evs[..n], file);
      assert evs == evs[..n] + [evs[n]];
      assert evs[n] in evs;
      CursorStep(evs[..n], evs[n], file);
      BufferStep(evs[..n], evs[n], file);
    }
  }

  /** The cursor never goes back. */
  lemma {:induction false} CursorNeverDecreases(evs: seq<Event>, more: seq<Event>, file: seq<byte>)
    requires Agrees(evs + more, file)
    ensures Run(evs).cursor <= Run(evs + more).cursor
    decreases |more|
  {
    if |more| == 0 {
      assert evs + more == evs;
    } else {
      var n := |more| - 1;
      var mid := evs + more[..n];
      assert evs + more == mid + [more[n]];
      assert forall e :: e in mid ==> e in evs + more;
      CursorNeverDecreases(evs, more[..n], file);
      RunKeeps(mid, file);
      CursorStep(mid, more[n], file);
    }
  }

  // ----- what was delivered, in terms of the messages alone

  /** Message `j` is a chunk that lies within the file and covers `p`. */
  ghost predicate Brings(e: Event, file: seq<byte>, p: nat) {
    e.Data? && e.off + e.len <= |file| && e.off <= p < e.off + e.len
  }

  /** Some chunk within the file that came after an INFO covers `p`. */
  ghost predicate Delivered(evs: seq<Event>, file: seq<byte>, p: nat) {
    exists i, j :: 0 <= i < j < |evs| && evs[i].Info? && Brings(evs[j], file, p)
  }

  /** And no INFO came after that chunk. */
  ghost predicate DeliveredLast(evs: seq<Event>, file: seq<byte>, p: nat) {
    exists i, j :: 0 <= i < j < |evs| && evs[i].Info? && Brings(evs[j], file, p) && NoInfoAfter(evs, j)
  }

  ghost predicate NoInfoAfter(evs: seq<Event>, j: int) {
    forall k :: 0 <= k < |evs| && j < k ==> !evs[k].Info?
  }

  /** Nothing is accepted before the buffer exists. */
  lemma {:induction false} ClosedUntilInfo(evs: seq<Event>)
    requires forall i :: 0 <= i < |evs| ==> !evs[i].Info?
    ensures !Run(evs).open
  {
    if |evs| > 0 {
      ClosedUntilInfo(evs[..|evs| - 1]);
    }
  }

  lemma {:induction false} LastInfoIs(evs: seq<Event>)
    ensures LastInfo(evs) <= |evs|
    ensures forall i :: LastInfo(evs) < i < |evs| ==> !evs[i].Info?
    ensures (exists i :: 0 <= i < |evs| && evs[i].Info?) ==> LastInfo(evs) < |evs| && evs[LastInfo(evs)].Info?
  {
    if |evs| > 0 {
      LastInfoIs(evs[..|evs| - 1]);
    }
  }

  lemma {:induction false} OpenOnceInfo(evs: seq<Event>, i: nat)
    requires i < |evs| && evs[i].Info?
    ensures Run(evs).open
    decreases |evs|
  {
    var n := |evs| - 1;
    if i < n {
      OpenOnceInfo(evs[..n], i);
    }
  }

  lemma AgreesFront(evs: seq<Event>, file: seq<byte>, j: nat)
    requires Agrees(evs, file) && j <= |evs|
    ensures Agrees(evs[..j], file)
  {
    assert forall e :: e in evs[..j] ==> e in evs;
  }

  /** Message `j` was accepted, and covers `p`. */
  ghost predicate AcceptedFor(evs: seq<Event>, j: nat, p: nat)
    requires j < |evs|
  {
    Fits(Run(evs[..j]), evs[j]) && evs[j].Extent().Covers(p)
  }

  ghost predicate InfoBefore(evs: seq<Event>, j: nat)
    requires j <= |evs|
  {
    exists i :: 0 <= i < j && evs[i].Info?
  }

  /** Accepting a chunk is nothing but its coming after an INFO and lying within
      the file. */
  lemma AcceptedExactly(evs: seq<Event>, file: seq<byte>, j: nat, p: nat)
    requires Agrees(evs, file) && j < |evs|
    ensures AcceptedFor(evs, j, p) <==> Brings(evs[j], file, p) && InfoBefore(evs, j)
  {
    AgreesFront(evs, file, j);
    RunKeeps(evs[..j], file);
    if Run(evs[..j]).open {
      var i := OpenedBy(evs[..j]);
      assert evs[i].Info?;
    }
    if i :| 0 <= i < j && evs[i].Info? {
      OpenOnceInfo(evs[..j], i);
    }
    hide Run, CursorInv, AllRight, NothingGot, LastInfo;
  }

  lemma GotMeans(evs: seq<Event>, file: seq<byte>, k: nat, p: nat)
    requires Agrees(evs, file)
    ensures GotSince(evs, k, p) <==> exists j :: k <= j < |evs| && Brings(evs[j], file, p) && InfoBefore(evs, j)
  {
    assert GotSince(evs, k, p) <==> exists j :: k <= j < |evs| && AcceptedFor(evs, j, p) by {
      if GotSince(evs, k, p) {
        var j :| k <= j < |evs| && Fits(Run(evs[..j]), evs[j]) && evs[j].Extent().Covers(p);
        assert AcceptedFor(evs, j, p);
      }
      if j :| k <= j < |evs| && AcceptedFor(evs, j, p) {
        assert Fits(Run(evs[..j]), evs[j]);
      }
    }
    hide AcceptedFor, Brings, InfoBefore, GotSince, Agrees;
    forall j: nat | j < |evs| ensures AcceptedFor(evs, j, p) <==> Brings(evs[j], file, p) && InfoBefore(evs, j) {
      AcceptedExactly(evs, file, j, p);
    }
  }

  lemma GotIsDelivered(evs: seq<Event>, file: seq<byte>, p: nat)
    requires Agrees(evs, file)
    ensures GotSince(evs, 0, p) <==> Delivered(evs, file, p)
  {
    GotMeans(evs, file, 0, p);
    hide Brings, GotSince, Agrees;
  }

  lemma GotIsDeliveredLast(evs: seq<Event>, file: seq<byte>, p: nat)
    requires Agrees(evs, file) && Run(evs).open
    ensures GotSince(evs, LastInfo(evs), p) <==> DeliveredLast(evs, file, p)
  {
    var first := OpenedBy(evs);
    LastInfoIs(evs);
    var k := LastInfo(evs);
    assert evs[k].Info? && NoInfoAfter(evs, k);
    GotMeans(evs, file, k, p);
    hide Run, GotSince, Agrees, LastInfo;
    SinceLast(evs, file, k, p);
  }

  /** Being brought from the last INFO on is being brought with no INFO after. */
  lemma SinceLast(evs: seq<Event>, file: seq<byte>, k: nat, p: nat)
    requires k < |evs| && evs[k].Info? && NoInfoAfter(evs, k)
    ensures (exists j :: k <= j < |evs| && Brings(evs[j], file, p) && InfoBefore(evs, j)) <==>
            DeliveredLast(evs, file, p)
  {
    if j :| k <= j < |evs| && Brings(evs[j], file, p) && InfoBefore(evs, j) {
      assert k < j;
      assert NoInfoAfter(evs, j);
    }
    if DeliveredLast(evs, file, p) {
      var i, j :| 0 <= i < j < |evs| && evs[i].Info? && Brings(evs[j], file, p) && NoInfoAfter(evs, j);
      assert k <= j;
      assert InfoBefore(evs, j);
    }
  }

  /** The cursor is the longest prefix that was delivered, under any loss,
      duplication, overlap and reordering. */
  lemma CursorIsLongestPrefix(evs: seq<Event>, file: seq<byte>)
    requires Agrees(evs, file)
    ensures forall p: nat :: p < Run(evs).cursor ==> Delivered(evs, file, p)
    ensures !Delivered(evs, file, Run(evs).cursor) && Run(evs).cursor <= |file|
    ensures Run(evs).open ==> Run(evs).cursor <= |Run(evs).rx|
  {
    RunKeeps(evs, file);
    var c := Run(evs).cursor;
    if c > 0 {
      assert Covered(Run(evs).have, c - 1);
    }
    hide Delivered, GotSince;
    forall p: nat ensures GotSince(evs, 0, p) <==> Delivered(evs, file, p) {
      GotIsDelivered(evs, file, p);
    }
  }

  /** The bytes below the cursor are the file's exactly when every one of them
      that is not zero in the file was delivered since the last INFO. */
  lemma PrefixCorrectExactly(evs: seq<Event>, file: seq<byte>)
    requires Agrees(evs, file) && Run(evs).open
    ensures var c := Run(evs).cursor;
      c <= |Run(evs).rx| && c <= |file| &&
      (Run(evs).rx[..c] == file[..c] <==> forall p: nat :: p < c ==> DeliveredLast(evs, file, p) || file[p] == 0)
  {
    RunKeeps(evs, file);
    CursorIsLongestPrefix(evs, file);
    var rx, c, k := Run(evs).rx, Run(evs).cursor, LastInfo(evs);
    assert forall p: nat :: p < |rx| && p < |file| ==> ByteRight(rx, evs, k, file, p);
    hide GotSince, Run, LastInfo, CursorInv, Delivered, DeliveredLast, Agrees;
    forall p: nat | p < c ensures rx[p] == file[p] <==> DeliveredLast(evs, file, p) || file[p] == 0 {
      assert ByteRight(rx, evs, k, file, p);
      GotIsDeliveredLast(evs, file, p);
    }
    SamePrefix(rx, file, c);
  }

  lemma SamePrefix(a: seq<byte>, b: seq<byte>, c: nat)
    requires c <= |a| && c <= |b|
    ensures a[..c] == b[..c] <==> forall p: nat :: p < c ==> a[p] == b[p]
  {}

  ghost predicate OneInfo(evs: seq<Event>) {
    forall i, j :: 0 <= i < j < |evs| && evs[i].Info? ==> !evs[j].Info?
  }

  /** With a single INFO, nothing is delivered before it. */
  lemma OneInfoCounts(evs: seq<Event>, file: seq<byte>, p: nat)
    requires OneInfo(evs) && Delivered(evs, file, p)
    ensures DeliveredLast(evs, file, p)
  {
    var i, j :| 0 <= i < j < |evs| && evs[i].Info? && Brings(evs[j], file, p);
    assert forall k :: j < k < |evs| ==> !evs[k].Info?;
  }

  /** An open buffer was opened by some INFO. */
  lemma OpenedBy(evs: seq<Event>) returns (j: nat)
    requires Run(evs).open
    ensures j < |evs| && evs[j].Info?
  {
    if forall i :: 0 <= i < |evs| ==> !evs[i].Info? {
      ClosedUntilInfo(evs);
    }
    j :| 0 <= j < |evs| && evs[j].Info?;
  }

  /** With a single INFO the received prefix is the file's, whatever was lost,
      repeated, overlapping or out of order. */
  lemma PrefixCorrect(evs: seq<Event>, file: seq<byte>)
    requires Agrees(evs, file) && OneInfo(evs) && Run(evs).open
    ensures var c := Run(evs).cursor; c <= |Run(evs).rx| && c <= |file| && Run(evs).rx[..c] == file[..c]
  {
    PrefixCorrectExactly(evs, file);
    CursorIsLongestPrefix(evs, file);
    hide Delivered, DeliveredLast, Agrees, Run;
    forall p: nat | p < Run(evs).cursor ensures DeliveredLast(evs, file, p) {
      OneInfoCounts(evs, file, p);
    }
  }

  lemma FirstSweep()
    ensures Insert([], Span(0, 1)) == [Span(0, 1)] && Pass([Span(0, 1)], 0) == 1
  {}

  lemma OneChunk(x: byte)
    ensures Run([] + [Info(1)] + [Data(0, 1, [x])]) == State(true, [x], [Span(0, 1)], 1)
  {
    var i, d := Info(1), Data(0, 1, [x]);
    RunOn([], i);
    RunOn([] + [i], d);
    FirstSweep();
    assert Run([]) == START;
    hide Run, Insert, Pass;
    assert Stored(Zeros(1), d) == [x];
    assert d.Extent() == Span(0, 1);
  }

  /** A second INFO, which the repeated open request can provoke, wipes the
      buffer but not the cursor: the bytes returned are then not the file's. */
  lemma SecondInfoWipes() returns (evs: seq<Event>, file: seq<byte>)
    ensures Agrees(evs, file) && Run(evs).open && Run(evs).cursor == 1 == |file| == |Run(evs).rx|
    ensures Run(evs).rx != file
  {
    file := [7];
    evs := [] + [Info(1)] + [Data(0, 1, [7])] + [Info(1)];
    OneChunk(7);
    RunOn([] + [Info(1)] + [Data(0, 1, [7])], Info(1));
    hide Run;
    assert Zeros(1)[0] == 0 && file[0] == 7;
  }

  /** Every chunk accepted after message `k` had the bytes its length field
      promises. */
  ghost predicate AllFull(evs: seq<Event>, k: nat) {
    forall i :: k < i < |evs| && Fits(Run(evs[..i]), evs[i]) ==> |evs[i].data| >= evs[i].len
  }

  lemma AllFullNext(evs: seq<Event>, e: Event, k: nat)
    requires k < |evs|
    ensures AllFull(evs + [e], k) <==> AllFull(evs, k) && (Fits(Run(evs), e) ==> |e.data| >= e.len)
  {
    hide Run, Fits;
    var all := evs + [e];
    assert all[..|evs|] == evs && all[|evs|] == e;
    assert forall i :: 0 <= i < |evs| ==> all[..i] == evs[..i] && all[i] == evs[i];
  }

  lemma StoredShrinks(rx: seq<byte>, e: Event)
    requires e.Data? && e.off + e.len <= |rx|
    ensures |Stored(rx, e)| <= |rx| && (|Stored(rx, e)| == |rx| <==> |e.data| >= e.len)
  {}

  /** The buffer has the length the last INFO announced exactly when every chunk
      accepted since was full ... */
  lemma {:induction false} BufferLength(evs: seq<Event>)
    requires Run(evs).open
    ensures var k := LastInfo(evs);
      k < |evs| && evs[k].Info? && |Run(evs).rx| <= evs[k].total &&
      (|Run(evs).rx| == evs[k].total <==> AllFull(evs, k))
  {
    var n := |evs| - 1;
    var front, e := evs[..n], evs[n];
    assert evs == front + [e];
    RunOn(front, e);
    var st := Run(front);
    if e.Info? {
      ZerosLength(e.total);
    } else {
      hide Run, LastInfo, Stored, AllFull;
      BufferLength(front);
      AllFullNext(front, e, LastInfo(front));
      if Fits(st, e) {
        StoredShrinks(st.rx, e);
      }
    }
  }

  /** ... and a short one shrinks it below the cursor, so that fewer bytes come
      back than were counted. */
  lemma ShortChunkShrinks() returns (evs: seq<Event>)
    ensures Run(evs).open && Run(evs).cursor == 2 && |Run(evs).rx| == 1
  {
    var i, d := Info(2), Data(0, 2, [7]);
    evs := [] + [i] + [d];
    RunOn([], i);
    RunOn([] + [i], d);
    assert Run([]) == START && Insert([], Span(0, 2)) == [Span(0, 2)] && Pass([Span(0, 2)], 0) == 2;
    hide Run, Insert, Pass;
    assert d.Extent() == Span(0, 2);
  }

  // ----- the loop

  datatype Outcome = Complete(bytes: seq<byte>) | Incomplete | Rejected | NoBuffer

  method Sweep(have: seq<Span>, start: nat) returns (cursor: nat)
    ensures cursor == Pass(have, start)
  {
    cursor := start;
    for k := 0 to |have|
      invariant cursor == Pass(have[..k], start)
    {
      assert have[..k + 1][..k] == have[..k];
      var s := have[k];
      if s.off <= cursor < s.off + s.len || s.off == cursor {
        cursor := s.off + s.len;
      }
    }
    assert have[..|have|] == have;
  }

  class Downloader {
    var open: bool
    var rx: seq<byte>
    var have: seq<Span>
    var cursor: nat

    ghost function Abstract(): State
      reads this
    {
      State(open, rx, have, cursor)
    }

    constructor ()
      ensures Abstract() == START
    {
      open, rx, have, cursor := false, [], [], 0;
    }

    method Handle(e: Event)
      modifies this
      ensures Abstract() == Receive(old(Abstract()), e)
    {
      hide Insert, Pass, Zeros;
      match e
      case Other =>
      case Reject =>
      case Info(total) =>
        open, rx := true, Zeros(total);
      case Data(off, len, data) =>
        if !open {
          return;
        }
        var end := off + len;
        if end <= |rx| {
          rx := rx[..off] + e.Payload() + rx[end..];
          have := Insert(have, Span(off, len));
          cursor := Sweep(have, cursor);
        }
    }

    /** The messages of one poll, until a rejection or enough bytes. */
    method HandlePoll(poll: seq<Event>, want: nat, ghost before: seq<Event>) returns (rejected: bool, ghost k: nat)
      requires Abstract() == Run(before) && Reject !in before && cursor < want
      modifies this
      ensures k <= |poll| && (!rejected && cursor < want ==> k == |poll|)
      ensures rejected ==> k > 0 && poll[k - 1] == Reject && Reject !in before + poll[..k - 1]
      ensures !rejected ==> Reject !in before + poll[..k] && Abstract() == Run(before + poll[..k])
    {
      hide Receive;
      assert before + poll[..0] == before;
      for j := 0 to |poll|
        invariant cursor < want
        invariant Reject !in before + poll[..j] && Abstract() == Run(before + poll[..j])
      {
        RunNext(before, poll, j);
        if poll[j] == Reject {
          return true, j + 1;
        }
        Handle(poll[j]);
        if cursor >= want {
          return false, j + 1;
        }
      }
      return false, |poll|;
    }

    /** Polls until `want` contiguous bytes are there or the polls run out. */
    method BoundedDownload(polls: seq<seq<Event>>, want: nat) returns (r: Outcome, ghost seen: seq<Event>)
      requires Abstract() == START
      modifies this
      ensures seen <= Flat(polls)
      ensures r.Rejected? ==> |seen| > 0 && seen[|seen| - 1] == Reject && Reject !in seen[..|seen| - 1]
      ensures !r.Rejected? ==> Reject !in seen && Abstract() == Run(seen)
      ensures r.Incomplete? ==> seen == Flat(polls) && cursor < want
      ensures r.Complete? ==> open && cursor >= want && r.bytes == (if cursor <= |rx| then rx[..cursor] else rx)
      ensures r.NoBuffer? ==> !open && cursor >= want
      ensures r.Complete? && OneInfo(seen) ==>
        forall file: seq<byte> :: Agrees(seen, file) ==> r.bytes <= file && |r.bytes| == cursor
    {
      seen := [];
      assert Run([]) == START;
      hide Run, Flat, Agrees, OneInfo;
      FlatNone(polls);
      for i := 0 to |polls|
        invariant seen == Flat(polls[..i]) && Reject !in seen && Abstract() == Run(seen)
      {
        if cursor >= want {
          FlatPrefix(polls, i, 0);
          break;
        }
        ghost var k, before := 0, seen;
        var rejected;
        rejected, k := HandlePoll(polls[i], want, seen);
        seen := before + polls[i][..k];
        FlatPrefix(polls, i, k);
        if rejected {
          assert seen[..|seen| - 1] == before + polls[i][..k - 1];
          return Rejected, seen;
        }
        if cursor >= want {
          break;
        }
        assert polls[i][..k] == polls[i];
        FlatNext(polls, i);
      }
      if cursor < want {
        return Incomplete, seen;
      }
      if !open {
        return NoBuffer, seen;
      }
      r := Complete(if cursor <= |rx| then rx[..cursor] else rx);
      if OneInfo(seen) {
        AnyFile(seen);
      }
    }
  }

  /** With a single INFO what is returned is a prefix of every file the messages
      could have come from. */
  lemma AnyFile(seen: seq<Event>)
    requires OneInfo(seen) && Run(seen).open
    ensures forall file: seq<byte> :: Agrees(seen, file) ==>
      var st := Run(seen); st.cursor <= |st.rx| && st.rx[..st.cursor] <= file
  {
    forall file: seq<byte> | Agrees(seen, file)
      ensures var st := Run(seen); st.cursor <= |st.rx| && st.rx[..st.cursor] <= file
    {
      PrefixCorrect(seen, file);
    }
  }

  lemma FlatNone(polls: seq<seq<Event>>)
    ensures Flat(polls[..0]) == [] && polls[..|polls|] == polls
  {}

  lemma FlatNext(polls: seq<seq<Event>>, i: nat)
    requires i < |polls|
    ensures Flat(polls[..i + 1]) == Flat(polls[..i]) + polls[i]
  {
    assert polls[..i + 1][..i] == polls[..i];
  }

  lemma RunNext(before: seq<Event>, poll: seq<Event>, j: nat)
    requires j < |poll|
    ensures Run(before + poll[..j + 1]) == Receive(Run(before + poll[..j]), poll[j])
    ensures before + poll[..j + 1] == (before + poll[..j]) + [poll[j]]
  {
    hide Receive;
    var s := before + poll[..j + 1];
    assert s[..|s| - 1] == before + poll[..j];
  }

  function Flat(polls: seq<seq<Event>>): seq<Event> {
    if |polls| == 0 then [] else Flat(polls[..|polls| - 1]) + polls[|polls| - 1]
  }

  lemma {:induction false} FlatPrefix(polls: seq<seq<Event>>, i: nat, k: nat)
    requires i <= |polls| && (if i < |polls| then k <= |polls[i]| else k == 0)
    ensures Flat(polls[..i]) <= Flat(polls)
    ensures i < |polls| ==> Flat(polls[..i]) + polls[i][..k] <= Flat(polls)
    decreases |polls|
  {
    var n := |polls| - 1;
    if i == |polls| {
      assert polls[..i] == polls;
    } else if i == n {
    } else {
      FlatPrefix(polls[..n], i, k);
      assert polls[..n][..i] == polls[..i];
    }
  }
}
