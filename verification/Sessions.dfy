/** Splitting the ordered frames of a recording into recording periods. */
module Sessions {
  import opened Bytes
  import opened RingReader

  /** The wall-clock anchor a SESSION frame carries, when it survives. */
  datatype Anchor = NoAnchor | Anchored(body: nat)

  datatype Group = Group(anchor: Anchor, tag: byte, blocks: seq<Frame>, events: seq<Frame>, truncated: bool)

  // ----- the reference: maximal runs of frames that belong together

  /** The numbers of two neighbours are not consecutive. */
  predicate Gap(p: Frame, f: Frame) {
    f.number != p.number + 1
  }

  predicate Parts(p: Frame, f: Frame) {
    f.kind.Session? || f.tag != p.tag || Gap(p, f)
  }

  /** The frames cut before every SESSION frame, tag change and gap. */
  function Segments(fs: seq<Frame>): (s: seq<seq<Frame>>)
    ensures |fs| > 0 ==> |s| > 0
  {
    if |fs| == 0 then []
    else
      var n := |fs| - 1;
      var front := Segments(fs[..n]);
      if n == 0 || Parts(fs[n - 1], fs[n]) then front + [[fs[n]]]
      else front[..|front| - 1] + [front[|front| - 1] + [fs[n]]]
  }

  function Flat(s: seq<seq<Frame>>): seq<Frame> {
    if |s| == 0 then [] else Flat(s[..|s| - 1]) + s[|s| - 1]
  }

  /** What holds inside one segment. */
  ghost predicate Coherent(g: seq<Frame>) {
    && |g| > 0
    && (forall i :: 0 <= i < |g| ==> g[i].tag == g[0].tag && g[i].number == g[0].number + i)
    && (forall i :: 0 < i < |g| ==> !g[i].kind.Session?)
  }

  function Last(g: seq<Frame>): Frame
    requires |g| > 0
  {
    g[|g| - 1]
  }

  lemma {:induction false} FlatLast(s: seq<seq<Frame>>, g: seq<Frame>)
    ensures Flat(s + [g]) == Flat(s) + g
  {}

  lemma ExtendCoherent(g: seq<Frame>, f: Frame)
    requires Coherent(g) && !Parts(Last(g), f)
    ensures Coherent(g + [f])
  {}

  function Final(s: seq<seq<Frame>>): seq<Frame>
    requires |s| > 0
  {
    s[|s| - 1]
  }

  /** A segment and the next are parted as the rules call for. */
  ghost predicate Parted(s: seq<seq<Frame>>, i: nat)
    requires i + 1 < |s|
  {
    |s[i]| > 0 && |s[i + 1]| > 0 &&
    var p, f := s[i][|s[i]| - 1], s[i + 1][0]; f.kind.Session? || f.tag != p.tag || f.number != p.number + 1
  }

  /** What the cutting promises. */
  ghost predicate Cuts(s: seq<seq<Frame>>, fs: seq<Frame>) {
    && Flat(s) == fs
    && (forall i :: 0 <= i < |s| ==> Coherent(s[i]))
    && (forall i :: 0 <= i < |s| - 1 ==> Parted(s, i))
    && (|fs| > 0 ==> |s| > 0 && |Final(s)| > 0 && Last(Final(s)) == fs[|fs| - 1])
  }

  lemma CutsNew(s: seq<seq<Frame>>, fs: seq<Frame>, f: Frame)
    requires Cuts(s, fs) && (|fs| == 0 ==> s == []) && (|fs| > 0 ==> Parts(fs[|fs| - 1], f))
    ensures Cuts(s + [[f]], fs + [f])
  {
    FlatLast(s, [f]);
    var t := s + [[f]];
    hide Flat, Coherent;
    assert Coherent([f]) by { OneCoherent(f); }
    forall i | 0 <= i < |t| - 1 ensures Parted(t, i) {
      if i < |s| - 1 {
        assert Parted(s, i);
      }
    }
  }

  lemma OneCoherent(f: Frame)
    ensures Coherent([f])
  {}

  lemma CutsMore(s: seq<seq<Frame>>, fs: seq<Frame>, f: Frame)
    requires Cuts(s, fs) && |fs| > 0 && !Parts(fs[|fs| - 1], f)
    ensures Cuts(s[..|s| - 1] + [Final(s) + [f]], fs + [f])
  {
    var n, g := |s| - 1, Final(s);
    var t := s[..n] + [g + [f]];
    assert s == s[..n] + [g];
    FlatLast(s[..n], g);
    FlatLast(s[..n], g + [f]);
    ExtendCoherent(g, f);
    assert Flat(t) == fs + [f];
    forall i | 0 <= i < |t| - 1 ensures Parted(t, i) {
      assert Parted(s, i);
    }
  }

  /** The segments are the frames, in order, none lost or repeated; each is
      coherent, and each boundary is one the rules call for. */
  lemma {:induction false} SegmentsCut(fs: seq<Frame>)
    ensures Cuts(Segments(fs), fs)
  {
    hide Cuts, Coherent, Parts;
    if |fs| == 0 {
      NoCuts();
    } else {
      var n := |fs| - 1;
      SegmentsCut(fs[..n]);
      assert fs == fs[..n] + [fs[n]];
      if n == 0 || Parts(fs[n - 1], fs[n]) {
        CutsNew(Segments(fs[..n]), fs[..n], fs[n]);
      } else {
        CutsMore(Segments(fs[..n]), fs[..n], fs[n]);
      }
    }
  }

  lemma NoCuts()
    ensures Cuts([], [])
  {}

  // ----- groups

  function Blocks(g: seq<Frame>): seq<Frame> {
    if |g| == 0 then [] else Blocks(g[..|g| - 1]) + (if Last(g).kind.Block? then [Last(g)] else [])
  }

  function Events(g: seq<Frame>): seq<Frame> {
    if |g| == 0 then [] else Events(g[..|g| - 1]) + (if Last(g).kind.Event? then [Last(g)] else [])
  }

  function GroupOf(g: seq<Frame>, truncated: bool): Group
    requires |g| > 0
  {
    Group(if g[0].kind.Session? then Anchored(g[0].body) else NoAnchor, g[0].tag, Blocks(g), Events(g), truncated)
  }

  /** A group is truncated exactly when another follows it across a gap. */
  predicate EndedByGap(s: seq<seq<Frame>>, i: nat)
    requires i < |s| && forall j :: 0 <= j < |s| ==> |s[j]| > 0
  {
    i + 1 < |s| && Gap(Last(s[i]), s[i + 1][0])
  }

  function Groups(s: seq<seq<Frame>>): seq<Group>
    requires forall j :: 0 <= j < |s| ==> |s[j]| > 0
  {
    seq(|s|, i requires 0 <= i < |s| => GroupOf(s[i], EndedByGap(s, i)))
  }

  /** Only groups with data are returned. */
  function WithData(gs: seq<Group>): seq<Group> {
    if |gs| == 0 then []
    else WithData(gs[..|gs| - 1]) + (var g := gs[|gs| - 1]; if g.blocks != [] || g.events != [] then [g] else [])
  }

  function AllBlocks(gs: seq<Group>): seq<Frame> {
    if |gs| == 0 then [] else AllBlocks(gs[..|gs| - 1]) + gs[|gs| - 1].blocks
  }

  function AllEvents(gs: seq<Group>): seq<Frame> {
    if |gs| == 0 then [] else AllEvents(gs[..|gs| - 1]) + gs[|gs| - 1].events
  }

  ghost predicate NonEmpty(s: seq<seq<Frame>>) {
    forall j :: 0 <= j < |s| ==> |s[j]| > 0
  }

  lemma {:induction false} BlocksSplit(a: seq<Frame>, b: seq<Frame>)
    ensures Blocks(a + b) == Blocks(a) + Blocks(b) && Events(a + b) == Events(a) + Events(b)
    decreases |b|
  {
    if |b| == 0 {
      assert a + b == a;
    } else {
      var n := |b| - 1;
      BlocksSplit(a, b[..n]);
      assert (a + b)[..|a + b| - 1] == a + b[..n];
    }
  }

  /** Dropping the groups without data loses nothing. */
  lemma {:induction false} WithDataKeepsAll(gs: seq<Group>)
    ensures AllBlocks(WithData(gs)) == AllBlocks(gs) && AllEvents(WithData(gs)) == AllEvents(gs)
  {
    if |gs| > 0 {
      var n := |gs| - 1;
      WithDataKeepsAll(gs[..n]);
      var w, g := WithData(gs[..n]), gs[n];
      if g.blocks != [] || g.events != [] {
        assert WithData(gs) == w + [g] && (w + [g])[..|w|] == w;
      } else {
        assert WithData(gs) == w;
      }
    }
  }

  /** Only the blocks and events of a list of groups. */
  ghost predicate Carries(gs: seq<Group>, s: seq<seq<Frame>>) {
    |gs| == |s| && forall i :: 0 <= i < |s| ==> gs[i].blocks == Blocks(s[i]) && gs[i].events == Events(s[i])
  }

  lemma {:induction false} CarriedFlat(gs: seq<Group>, s: seq<seq<Frame>>)
    requires Carries(gs, s)
    ensures AllBlocks(gs) == Blocks(Flat(s)) && AllEvents(gs) == Events(Flat(s))
  {
    if |s| > 0 {
      var n := |s| - 1;
      CarriedFlat(gs[..n], s[..n]);
      BlocksSplit(Flat(s[..n]), s[n]);
    }
  }

  lemma {:induction false} FilteredExactly(g: seq<Frame>, f: Frame)
    ensures f in Blocks(g) <==> f in g && f.kind.Block?
    ensures f in Events(g) <==> f in g && f.kind.Event?
  {
    if |g| > 0 {
      var n := |g| - 1;
      FilteredExactly(g[..n], f);
      assert g == g[..n] + [g[n]];
    }
  }

  lemma {:induction false} FilteredInOrder(g: seq<Frame>)
    requires forall i, j :: 0 <= i < j < |g| ==> g[i].number < g[j].number
    ensures forall i, j :: 0 <= i < j < |Blocks(g)| ==> Blocks(g)[i].number < Blocks(g)[j].number
    ensures forall i, j :: 0 <= i < j < |Events(g)| ==> Events(g)[i].number < Events(g)[j].number
  {
    if |g| > 0 {
      var n := |g| - 1;
      var front := g[..n];
      FilteredInOrder(front);
      var bs, es := Blocks(front), Events(front);
      forall i | 0 <= i < |bs| ensures bs[i].number < g[n].number {
        FilteredExactly(front, bs[i]);
        assert bs[i] in bs;
      }
      forall i | 0 <= i < |es| ensures es[i].number < g[n].number {
        FilteredExactly(front, es[i]);
        assert es[i] in es;
      }
    }
  }

  /** What a group is made of: the tag of its segment, the anchor of the SESSION
      frame it begins with, if it does, its blocks and its events in order; and it
      is truncated exactly when the next segment begins across a gap. */
  lemma GroupMeans(s: seq<seq<Frame>>, j: nat)
    requires NonEmpty(s) && j < |s| && Coherent(s[j])
    ensures var g, q := Groups(s)[j], s[j];
      && (forall i :: 0 <= i < |q| ==> q[i].tag == g.tag)
      && g.anchor == (if q[0].kind.Session? then Anchored(q[0].body) else NoAnchor)
      && (forall f :: f in g.blocks <==> f in q && f.kind.Block?)
      && (forall f :: f in g.events <==> f in q && f.kind.Event?)
      && (forall a, b :: 0 <= a < b < |g.blocks| ==> g.blocks[a].number < g.blocks[b].number)
      && (forall a, b :: 0 <= a < b < |g.events| ==> g.events[a].number < g.events[b].number)
      && (g.truncated <==> j + 1 < |s| && s[j + 1][0].number != q[|q| - 1].number + 1)
  {
    var q := s[j];
    hide Blocks, Events;
    forall f
      ensures f in Blocks(q) <==> f in q && f.kind.Block?
      ensures f in Events(q) <==> f in q && f.kind.Event?
    {
      FilteredExactly(q, f);
    }
    FilteredInOrder(q);
  }

  /** The groups returned hold every block and every event frame exactly once
      and in order. */
  lemma NothingLost(fs: seq<Frame>)
    ensures NonEmpty(Segments(fs))
    ensures var out := WithData(Groups(Segments(fs))); AllBlocks(out) == Blocks(fs) && AllEvents(out) == Events(fs)
  {
    SegmentsCut(fs);
    var s := Segments(fs);
    assert forall i :: 0 <= i < |s| ==> Coherent(s[i]);
    hide Segments, Coherent, Parts, Parted, Blocks, Events, WithData, AllBlocks, AllEvents, Flat;
    assert NonEmpty(s) by { AllNonEmpty(s); }
    CarriedFlat(Groups(s), s);
    WithDataKeepsAll(Groups(s));
  }

  lemma AllNonEmpty(s: seq<seq<Frame>>)
    requires forall i :: 0 <= i < |s| ==> Coherent(s[i])
    ensures NonEmpty(s)
  {}

  // ----- the loop

  /** What the loop does with a frame once its group is current. */
  function Add(g: Group, f: Frame): Group {
    match f.kind
    case Block(_, _) => g.(blocks := g.blocks + [f])
    case Event => g.(events := g.events + [f])
    case Session => g.(anchor := Anchored(f.body))
    case Unknown => g
  }

  lemma GroupOfOne(f: Frame)
    ensures GroupOf([f], false) == Add(Group(NoAnchor, f.tag, [], [], false), f)
  {
    assert [f][..0] == [] && Blocks([]) == [] && Events([]) == [];
    assert Blocks([f]) == (if f.kind.Block? then [f] else []);
    assert Events([f]) == (if f.kind.Event? then [f] else []);
  }

  lemma GroupOfMore(g: seq<Frame>, f: Frame, t: bool)
    requires |g| > 0 && !f.kind.Session?
    ensures GroupOf(g + [f], t) == Add(GroupOf(g, t), f)
  {}

  lemma GroupsNew(s: seq<seq<Frame>>, f: Frame)
    requires NonEmpty(s)
    ensures NonEmpty(s + [[f]])
    ensures |s| == 0 ==> Groups(s + [[f]]) == [GroupOf([f], false)]
    ensures |s| > 0 ==>
      var n, gs := |s| - 1, Groups(s);
      Groups(s + [[f]]) == gs[..n] + [gs[n].(truncated := Gap(Last(s[n]), f))] + [GroupOf([f], false)]
  {
    hide Blocks, Events;
    var t := s + [[f]];
    assert t[|s|] == [f];
    if |s| > 0 {
      var n, gs := |s| - 1, Groups(s);
      var r := gs[..n] + [gs[n].(truncated := Gap(Last(s[n]), f))] + [GroupOf([f], false)];
      forall i | 0 <= i < |t| ensures Groups(t)[i] == r[i] {
        assert i < |s| ==> t[i] == s[i];
      }
    }
  }

  lemma GroupsMore(s: seq<seq<Frame>>, f: Frame)
    requires NonEmpty(s) && |s| > 0 && !f.kind.Session?
    ensures var n := |s| - 1; var t := s[..n] + [s[n] + [f]];
      NonEmpty(t) && Groups(t) == Groups(s)[..n] + [Add(Groups(s)[n], f)]
  {
    hide Blocks, Events;
    var n := |s| - 1;
    var t := s[..n] + [s[n] + [f]];
    GroupOfMore(s[n], f, false);
    forall i | 0 <= i < |t| ensures Groups(t)[i] == (if i < n then Groups(s)[i] else Add(Groups(s)[n], f)) {
      if i < n {
        assert t[i] == s[i] && t[i + 1][0] == s[i + 1][0];
      }
    }
  }

  /** The loop has reached frame `i` with these groups. */
  ghost predicate Reached(fs: seq<Frame>, i: nat, out: seq<Group>) {
    i <= |fs| && NonEmpty(Segments(fs[..i])) && out == Groups(Segments(fs[..i]))
  }

  lemma SegmentsNext(fs: seq<Frame>, i: nat)
    requires i < |fs|
    ensures Segments(fs[..i + 1]) ==
      (var front := Segments(fs[..i]);
       if i == 0 || Parts(fs[i - 1], fs[i]) then front + [[fs[i]]]
       else front[..|front| - 1] + [front[|front| - 1] + [fs[i]]])
  {
    assert fs[..i + 1][..i] == fs[..i];
  }

  lemma ReachedStart(fs: seq<Frame>)
    ensures Reached(fs, 0, [])
  {}

  /** The last frame handled is the last of the current group, so its tag is the
      current tag. */
  lemma CurrentTag(fs: seq<Frame>, i: nat, out: seq<Group>)
    requires Reached(fs, i, out) && i > 0
    ensures |out| > 0 && out[|out| - 1].tag == fs[i - 1].tag
  {
    SegmentsCut(fs[..i]);
    var s := Segments(fs[..i]);
    assert Coherent(Final(s)) && Last(Final(s)) == fs[i - 1];
  }

  lemma ReachedFirst(fs: seq<Frame>)
    requires |fs| > 0
    ensures Reached(fs, 1, [Add(Group(NoAnchor, fs[0].tag, [], [], false), fs[0])])
  {
    SegmentsNext(fs, 0);
    EmptySegments(fs);
    hide Segments, Blocks, Events, Groups;
    GroupsNew([], fs[0]);
    GroupOfOne(fs[0]);
  }

  lemma ReachedNew(fs: seq<Frame>, i: nat, out: seq<Group>)
    requires Reached(fs, i, out) && 0 < i < |fs| && Parts(fs[i - 1], fs[i]) && |out| > 0
    ensures Reached(fs, i + 1,
      out[..|out| - 1] + [out[|out| - 1].(truncated := Gap(fs[i - 1], fs[i]))]
      + [Add(Group(NoAnchor, fs[i].tag, [], [], false), fs[i])])
  {
    var s := Segments(fs[..i]);
    LastHandled(fs, i);
    SegmentsNext(fs, i);
    hide Segments, Parts, Gap, Blocks, Events, Groups;
    GroupsNew(s, fs[i]);
    GroupOfOne(fs[i]);
    assert |out| == |s| by { GroupsLength(s); }
  }

  lemma GroupsLength(s: seq<seq<Frame>>)
    requires NonEmpty(s)
    ensures |Groups(s)| == |s|
  {}

  lemma LastHandled(fs: seq<Frame>, i: nat)
    requires 0 < i <= |fs|
    ensures var s := Segments(fs[..i]); |s| > 0 && |Final(s)| > 0 && Last(Final(s)) == fs[i - 1]
  {}

  lemma EmptySegments(fs: seq<Frame>)
    ensures Segments(fs[..0]) == []
  {}

  lemma ReachedMore(fs: seq<Frame>, i: nat, out: seq<Group>)
    requires Reached(fs, i, out) && 0 < i < |fs| && |out| > 0 && !Parts(fs[i - 1], fs[i])
    ensures Reached(fs, i + 1, out[..|out| - 1] + [Add(out[|out| - 1], fs[i])])
  {
    SegmentsNext(fs, i);
    var s := Segments(fs[..i]);
    GroupsMore(s, fs[i]);
  }

  method Sessions(frames: seq<Frame>) returns (out: seq<Group>)
    ensures NonEmpty(Segments(frames)) && out == WithData(Groups(Segments(frames)))
  {
    hide Reached, Segments, Groups, WithData;
    var groups: seq<Group> := [];
    ReachedStart(frames);
    for i := 0 to |frames|
      invariant Reached(frames, i, groups) && (i > 0 ==> |groups| > 0)
    {
      var f := frames[i];
      if i == 0 {
        ReachedFirst(frames);
        groups := [Add(Group(NoAnchor, f.tag, [], [], false), f)];
      } else {
        CurrentTag(frames, i, groups);
        var cur := groups[|groups| - 1];
        var gap := f.number != frames[i - 1].number + 1;
        if f.kind.Session? || f.tag != cur.tag || gap {
          ReachedNew(frames, i, groups);
          groups := groups[..|groups| - 1] + [cur.(truncated := gap)] + [Add(Group(NoAnchor, f.tag, [], [], false), f)];
        } else {
          ReachedMore(frames, i, groups);
          groups := groups[..|groups| - 1] + [Add(cur, f)];
        }
      }
    }
    ReachedEnd(frames, groups);
    out := KeepData(groups);
  }

  lemma ReachedEnd(fs: seq<Frame>, out: seq<Group>)
    requires Reached(fs, |fs|, out)
    ensures NonEmpty(Segments(fs)) && out == Groups(Segments(fs))
  {
    assert fs[..|fs|] == fs;
  }

  method KeepData(gs: seq<Group>) returns (out: seq<Group>)
    ensures out == WithData(gs)
  {
    out := [];
    for i := 0 to |gs|
      invariant out == WithData(gs[..i])
    {
      assert gs[..i + 1][..i] == gs[..i];
      if gs[i].blocks != [] || gs[i].events != [] {
        out := out + [gs[i]];
      }
    }
    assert gs[..|gs|] == gs;
  }
}
