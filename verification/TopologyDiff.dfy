/** The difference between two flat views, as seen by a memory listener (memory.c). */
module TopologyDiff {
  import opened Prelude
  import opened RegionGraph
  import opened FlatViews

  predicate FlatRangeEqual(a: FlatRange, b: FlatRange) {
    && a.mr == b.mr
    && a.addr == b.addr
    && a.offset == b.offset
    && a.readable == b.readable
    && a.readonly == b.readonly
  }

  datatype Event =
    | RegionDel(range: FlatRange)
    | RegionAdd(range: FlatRange)
    | RegionNop(range: FlatRange)
    | LogStart(range: FlatRange)
    | LogStop(range: FlatRange)

  // The simple form: every range is searched for in the other view.

  /** The range of `v` equal to `r` up to its logging mask. */
  function Find(v: seq<FlatRange>, r: FlatRange): Option<FlatRange> {
    if v == [] then None
    else if FlatRangeEqual(v[0], r) then Some(v[0])
    else Find(v[1..], r)
  }

  function Deletion(o: FlatRange, news: seq<FlatRange>): seq<Event> {
    if Find(news, o).Some? then [] else [RegionDel(o)]
  }

  function Deletions(olds: seq<FlatRange>, news: seq<FlatRange>): seq<Event> {
    if olds == [] then [] else Deletion(olds[0], news) + Deletions(olds[1..], news)
  }

  function LogChange(o: FlatRange, r: FlatRange): seq<Event> {
    if o.dirtyLogMask != 0 && r.dirtyLogMask == 0 then [LogStop(r)]
    else if r.dirtyLogMask != 0 && o.dirtyLogMask == 0 then [LogStart(r)]
    else []
  }

  function Addition(olds: seq<FlatRange>, r: FlatRange): seq<Event> {
    var o := Find(olds, r);
    if o.Some? then [RegionNop(r)] + LogChange(o.value, r) else [RegionAdd(r)]
  }

  function Additions(olds: seq<FlatRange>, news: seq<FlatRange>): seq<Event> {
    if news == [] then [] else Addition(olds, news[0]) + Additions(olds, news[1..])
  }

  lemma {:induction false} DeletionsSnoc(olds: seq<FlatRange>, last: FlatRange, news: seq<FlatRange>)
    ensures Deletions(olds + [last], news) ==
            Deletions(olds, news) + Deletion(last, news)
  {
    if olds == [] {
      assert [] + [last] == [last] && [last][1..] == [];
    } else {
      assert (olds + [last])[1..] == olds[1..] + [last];
      DeletionsSnoc(olds[1..], last, news);
    }
  }

  lemma {:induction false} AdditionsSnoc(olds: seq<FlatRange>, news: seq<FlatRange>, last: FlatRange)
    ensures Additions(olds, news + [last]) == Additions(olds, news) + Addition(olds, last)
  {
    if news == [] {
      assert [] + [last] == [last] && [last][1..] == [];
    } else {
      assert (news + [last])[1..] == news[1..] + [last];
      AdditionsSnoc(olds, news[1..], last);
    }
  }

  lemma {:induction false} FindNone(v: seq<FlatRange>, r: FlatRange)
    requires forall i | 0 <= i < |v| :: !FlatRangeEqual(v[i], r)
    ensures Find(v, r) == None
  {
    if v != [] {
      FindNone(v[1..], r);
    }
  }

  lemma {:induction false} FindAt(v: seq<FlatRange>, i: nat, r: FlatRange)
    requires Sorted(v) && i < |v| && FlatRangeEqual(v[i], r)
    ensures Find(v, r) == Some(v[i])
  {
    if i > 0 {
      assert v[0].addr.End() <= v[i].addr.start && v[0].addr.size > 0;
      FindAt(v[1..], i - 1, r);
    }
  }

  lemma {:induction false} FindSound(v: seq<FlatRange>, r: FlatRange)
    requires Find(v, r).Some?
    ensures Find(v, r).value in v && FlatRangeEqual(Find(v, r).value, r)
  {
    if !FlatRangeEqual(v[0], r) {
      FindSound(v[1..], r);
    }
  }

  /** No range before the cursors is equal to a range after them. */
  ghost predicate CursorsApart(olds: seq<FlatRange>, news: seq<FlatRange>, iold: nat, inew: nat) {
    && iold <= |olds| && inew <= |news|
    && (forall i, j | 0 <= i < iold && inew <= j < |news| :: !FlatRangeEqual(olds[i], news[j]))
    && (forall i, j | iold <= i < |olds| && 0 <= j < inew :: !FlatRangeEqual(olds[i], news[j]))
  }

  lemma OldIsGone(olds: seq<FlatRange>, news: seq<FlatRange>, iold: nat, inew: nat)
    requires Sorted(olds) && Sorted(news) && CursorsApart(olds, news, iold, inew) && iold < |olds|
    requires inew < |news| ==>
      || olds[iold].addr.start < news[inew].addr.start
      || (olds[iold].addr.start == news[inew].addr.start && !FlatRangeEqual(olds[iold], news[inew]))
    ensures CursorsApart(olds, news, iold + 1, inew)
    ensures Find(news, olds[iold]) == None
  {
    forall j | inew <= j < |news|
      ensures !FlatRangeEqual(olds[iold], news[j])
    {
      if j > inew {
        assert news[inew].addr.size > 0 && news[inew].addr.End() <= news[j].addr.start;
      }
    }
    FindNone(news, olds[iold]);
  }

  lemma NewIsFresh(olds: seq<FlatRange>, news: seq<FlatRange>, iold: nat, inew: nat)
    requires Sorted(olds) && Sorted(news) && CursorsApart(olds, news, iold, inew) && inew < |news|
    requires iold < |olds| ==> olds[iold].addr.start > news[inew].addr.start
    ensures CursorsApart(olds, news, iold, inew + 1)
    ensures Find(olds, news[inew]) == None
  {
    forall i | iold <= i < |olds|
      ensures !FlatRangeEqual(olds[i], news[inew])
    {
      if i > iold {
        assert olds[iold].addr.size > 0 && olds[iold].addr.End() <= olds[i].addr.start;
      }
    }
    FindNone(olds, news[inew]);
  }

  lemma BothStay(olds: seq<FlatRange>, news: seq<FlatRange>, iold: nat, inew: nat)
    requires Sorted(olds) && Sorted(news) && CursorsApart(olds, news, iold, inew)
    requires iold < |olds| && inew < |news| && FlatRangeEqual(olds[iold], news[inew])
    ensures CursorsApart(olds, news, iold + 1, inew + 1)
    ensures Find(olds, news[inew]) == Some(olds[iold])
    ensures Find(news, olds[iold]) == Some(news[inew])
  {
    forall j | inew < j < |news|
      ensures !FlatRangeEqual(olds[iold], news[j])
    {
      assert news[inew].addr.size > 0 && news[inew].addr.End() <= news[j].addr.start;
    }
    forall i | iold < i < |olds|
      ensures !FlatRangeEqual(olds[i], news[inew])
    {
      assert olds[iold].addr.size > 0 && olds[iold].addr.End() <= olds[i].addr.start;
    }
    FindAt(olds, iold, news[inew]);
    FindAt(news, inew, olds[iold]);
  }

  /** One pass of the merge.  Its single sweep finds what the simple form finds by searching. */
  method UpdateTopologyPass(olds: seq<FlatRange>, news: seq<FlatRange>, adding: bool) returns (events: seq<Event>)
    requires Sorted(olds) && Sorted(news)
    ensures events == if adding then Additions(olds, news) else Deletions(olds, news)
    ensures if adding then AllAddEvents(olds, news, events) else DelEvents(olds, news, events)
  {
    hide Sorted, Find, Deletions, Additions, AllAddEvents, DelEvents;
    AdditionsAre(olds, news);
    DeletionsAre(olds, news);
    events := [];
    var iold, inew := 0, 0;
    PassStart(olds, news);
    while iold < |olds| || inew < |news|
      invariant CursorsApart(olds, news, iold, inew)
      invariant events == if adding then Additions(olds, news[..inew]) else Deletions(olds[..iold], news)
      decreases |olds| - iold + |news| - inew
    {
      assert inew < |news| ==> news[..inew + 1] == news[..inew] + [news[inew]];
      assert iold < |olds| ==> olds[..iold + 1] == olds[..iold] + [olds[iold]];
      if iold < |olds|
         && (inew == |news|
             || olds[iold].addr.start < news[inew].addr.start
             || (olds[iold].addr.start == news[inew].addr.start && !FlatRangeEqual(olds[iold], news[inew])))
      {
        OldIsGone(olds, news, iold, inew);
        DeletionsSnoc(olds[..iold], olds[iold], news);
        if !adding {
          events := events + [RegionDel(olds[iold])];
        }
        iold := iold + 1;
      } else if iold < |olds| && inew < |news| && FlatRangeEqual(olds[iold], news[inew]) {
        BothStay(olds, news, iold, inew);
        DeletionsSnoc(olds[..iold], olds[iold], news);
        AdditionsSnoc(olds, news[..inew], news[inew]);
        if adding {
          events := events + [RegionNop(news[inew])];
          if olds[iold].dirtyLogMask != 0 && news[inew].dirtyLogMask == 0 {
            events := events + [LogStop(news[inew])];
          } else if news[inew].dirtyLogMask != 0 && olds[iold].dirtyLogMask == 0 {
            events := events + [LogStart(news[inew])];
          }
        }
        iold, inew := iold + 1, inew + 1;
      } else {
        NewIsFresh(olds, news, iold, inew);
        AdditionsSnoc(olds, news[..inew], news[inew]);
        if adding {
          events := events + [RegionAdd(news[inew])];
        }
        inew := inew + 1;
      }
    }
    assert olds[..iold] == olds && news[..inew] == news;
  }

  // What the events are, said without searching.

  /** Some range of `v` is `r` but for its logging mask. */
  ghost predicate IsKept(v: seq<FlatRange>, r: FlatRange) {
    exists o :: o in v && o == r.(dirtyLogMask := o.dirtyLogMask)
  }

  lemma FindIsKept(v: seq<FlatRange>, r: FlatRange)
    ensures Find(v, r).Some? <==> IsKept(v, r)
  {
    if Find(v, r).Some? {
      FindSound(v, r);
      assert Find(v, r).value == r.(dirtyLogMask := Find(v, r).value.dirtyLogMask);
    } else {
      FindMisses(v, r);
    }
  }

  lemma {:induction false} FindMisses(v: seq<FlatRange>, r: FlatRange)
    requires Find(v, r).None?
    ensures forall o | o in v :: o != r.(dirtyLogMask := o.dirtyLogMask)
  {
    if v != [] {
      FindMisses(v[1..], r);
    }
  }

  /** The delete pass: one del for each old range that no new range is but for its mask, in order. */
  ghost predicate DelEvents(olds: seq<FlatRange>, news: seq<FlatRange>, events: seq<Event>)
    decreases |olds|
  {
    if olds == [] then events == []
    else if IsKept(news, olds[0]) then DelEvents(olds[1..], news, events)
    else events != [] && events[0] == RegionDel(olds[0]) && DelEvents(olds[1..], news, events[1..])
  }

  /** What the add pass says of one new range: an add, or a nop and the change of its logging. */
  ghost predicate AddEvents(olds: seq<FlatRange>, r: FlatRange, events: seq<Event>) {
    if !IsKept(olds, r) then events == [RegionAdd(r)]
    else
      && events != [] && events[0] == RegionNop(r)
      && forall o | o in olds && o == r.(dirtyLogMask := o.dirtyLogMask) ::
           events[1..] == if o.dirtyLogMask != 0 && r.dirtyLogMask == 0 then [LogStop(r)]
                          else if o.dirtyLogMask == 0 && r.dirtyLogMask != 0 then [LogStart(r)]
                          else []
  }

  /** The events of the add pass, cut at the new ranges. */
  ghost predicate AllAddEvents(olds: seq<FlatRange>, news: seq<FlatRange>, events: seq<Event>)
    decreases |news|
  {
    if news == [] then events == []
    else
      exists n ::
        0 < n <= |events| && AddEvents(olds, news[0], events[..n]) && AllAddEvents(olds, news[1..], events[n..])
  }

  /** One event for each range that goes, and no other. */
  lemma {:induction false} DeletionsAre(olds: seq<FlatRange>, news: seq<FlatRange>)
    ensures DelEvents(olds, news, Deletions(olds, news))
  {
    if olds != [] {
      FindIsKept(news, olds[0]);
      DeletionsAre(olds[1..], news);
      var rest := Deletions(olds[1..], news);
      assert Deletion(olds[0], news) + rest == if IsKept(news, olds[0]) then rest else [RegionDel(olds[0])] + rest;
      assert ([RegionDel(olds[0])] + rest)[1..] == rest;
    }
  }

  lemma AdditionIs(olds: seq<FlatRange>, r: FlatRange)
    requires Sorted(olds)
    ensures AddEvents(olds, r, Addition(olds, r)) && Addition(olds, r) != []
  {
    FindIsKept(olds, r);
    forall o | o in olds && o == r.(dirtyLogMask := o.dirtyLogMask)
      ensures Find(olds, r) == Some(o)
    {
      var i :| 0 <= i < |olds| && olds[i] == o;
      FindAt(olds, i, r);
    }
    if Find(olds, r).Some? {
      var o := Find(olds, r).value;
      assert ([RegionNop(r)] + LogChange(o, r))[1..] == LogChange(o, r);
    }
  }

  /** One add or nop for each new range, in order, and exactly the changes of its logging. */
  lemma {:induction false} AdditionsAre(olds: seq<FlatRange>, news: seq<FlatRange>)
    requires Sorted(olds)
    ensures AllAddEvents(olds, news, Additions(olds, news))
  {
    hide Sorted, AddEvents, Addition;
    if news != [] {
      var first, rest := Addition(olds, news[0]), Additions(olds, news[1..]);
      AdditionIs(olds, news[0]);
      AdditionsAre(olds, news[1..]);
      var n := |first|;
      assert (first + rest)[..n] == first && (first + rest)[n..] == rest;
    }
  }

  lemma PassStart(olds: seq<FlatRange>, news: seq<FlatRange>)
    ensures Deletions(olds[..0], news) == [] && Additions(olds, news[..0]) == []
  {
  }

  // A listener that remembers the sections it was told about, and whether each is logged.

  datatype Section = Section(mr: RegionId, offset: int, addr: AddrRange, readonly: bool)

  function SectionOf(r: FlatRange): Section {
    Section(r.mr, r.offset, r.addr, r.readonly)
  }

  type Listener = map<Section, bool>

  function Notify(l: Listener, e: Event): Listener {
    match e
    case RegionDel(r) => l - {SectionOf(r)}
    case RegionAdd(r) => l[SectionOf(r) := r.dirtyLogMask != 0]
    case RegionNop(_) => l
    case LogStart(r) => l[SectionOf(r) := true]
    case LogStop(r) => l[SectionOf(r) := false]
  }

  function NotifyAll(l: Listener, events: seq<Event>): Listener
    decreases |events|
  {
    if events == [] then l else NotifyAll(Notify(l, events[0]), events[1..])
  }

  ghost predicate Disjoint(l: Listener) {
    forall s, t | s in l && t in l && s != t :: s.addr.End() <= t.addr.start || t.addr.End() <= s.addr.start
  }

  /** The listener is asked to drop, keep or relog only what it holds, and to take only what it does not. */
  ghost predicate Sensible(l: Listener, e: Event) {
    if e.RegionAdd? then SectionOf(e.range) !in l else SectionOf(e.range) in l
  }

  /** Every event makes sense to the listener, and its sections are disjoint before and after each one. */
  ghost predicate GoodRun(l: Listener, events: seq<Event>)
    decreases |events|
  {
    && Disjoint(l)
    && (events != [] ==> Sensible(l, events[0]) && GoodRun(Notify(l, events[0]), events[1..]))
  }

  /** A listener that holds exactly the ranges of a view. */
  function Holding(v: seq<FlatRange>): Listener {
    if v == [] then map[] else Holding(v[1..])[SectionOf(v[0]) := v[0].dirtyLogMask != 0]
  }

  lemma {:induction false} HoldingKey(v: seq<FlatRange>, s: Section) returns (i: nat)
    requires s in Holding(v)
    ensures i < |v| && s == SectionOf(v[i])
  {
    if s == SectionOf(v[0]) {
      i := 0;
    } else {
      var j := HoldingKey(v[1..], s);
      i := j + 1;
    }
  }

  lemma {:induction false} HoldingAt(v: seq<FlatRange>, i: nat)
    requires Sorted(v) && i < |v|
    ensures SectionOf(v[i]) in Holding(v) && Holding(v)[SectionOf(v[i])] == (v[i].dirtyLogMask != 0)
  {
    if i > 0 {
      assert v[0].addr.End() <= v[i].addr.start && v[0].addr.size > 0;
      HoldingAt(v[1..], i - 1);
    }
  }

  lemma HoldingDisjoint(v: seq<FlatRange>)
    requires Sorted(v)
    ensures Disjoint(Holding(v))
  {
    forall s, t | s in Holding(v) && t in Holding(v) && s != t
      ensures s.addr.End() <= t.addr.start || t.addr.End() <= s.addr.start
    {
      var i := HoldingKey(v, s);
      var j := HoldingKey(v, t);
    }
  }

  lemma SwapUpdates(l: Listener, a: Section, x: bool, b: Section, y: bool)
    requires a != b
    ensures l[a := x][b := y] == l[b := y][a := x]
  {
  }

  lemma SectionsDiffer(v: seq<FlatRange>, i: nat)
    requires Sorted(v) && 0 < i < |v|
    ensures SectionOf(v[0]) != SectionOf(v[i])
  {
    assert v[0].addr.End() <= v[i].addr.start && v[0].addr.size > 0;
  }

  /** A range in the middle of a sorted view is one more section that a listener of the view holds. */
  lemma {:induction false} HoldingInsert(u: seq<FlatRange>, r: FlatRange, w: seq<FlatRange>)
    requires Sorted(u + [r] + w)
    ensures Holding(u + [r] + w) == Holding(u + w)[SectionOf(r) := r.dirtyLogMask != 0]
  {
    var v := u + [r] + w;
    if u == [] {
      assert v[1..] == w && [] + w == w;
    } else {
      hide Sorted, SectionOf;
      assert v[1..] == u[1..] + [r] + w && (u + w)[1..] == u[1..] + w;
      SortedTail(v);
      SectionsDiffer(v, |u|);
      HoldingInsert(u[1..], r, w);
      SwapUpdates(Holding(u[1..] + w), SectionOf(r), r.dirtyLogMask != 0, SectionOf(u[0]), u[0].dirtyLogMask != 0);
    }
  }

  lemma SortedTail(v: seq<FlatRange>)
    requires Sorted(v) && v != []
    ensures Sorted(v[1..])
  {
  }

  lemma SortedWithout(u: seq<FlatRange>, r: FlatRange, w: seq<FlatRange>)
    requires Sorted(u + [r] + w)
    ensures Sorted(u + w)
  {
    var v := u + [r] + w;
    forall i, j | 0 <= i < j < |u + w|
      ensures (u + w)[i].addr.End() <= (u + w)[j].addr.start
    {
      assert (u + w)[i] == v[if i < |u| then i else i + 1];
      assert (u + w)[j] == v[if j < |u| then j else j + 1];
    }
    forall i | 0 <= i < |u + w|
      ensures (u + w)[i].addr.size > 0
    {
      assert (u + w)[i] == v[if i < |u| then i else i + 1];
    }
  }

  lemma SortedSwap(u: seq<FlatRange>, r: FlatRange, w: seq<FlatRange>, o: FlatRange)
    requires Sorted(u + [r] + w) && o.addr == r.addr
    ensures Sorted(u + [o] + w)
  {
    var v, v' := u + [r] + w, u + [o] + w;
    assert forall i | 0 <= i < |v| :: v'[i].addr == v[i].addr;
  }

  lemma NotHeld(u: seq<FlatRange>, r: FlatRange, w: seq<FlatRange>)
    requires Sorted(u + [r] + w)
    ensures SectionOf(r) !in Holding(u + w)
  {
    var v := u + [r] + w;
    forall i | 0 <= i < |u + w|
      ensures (u + w)[i].addr != r.addr
    {
      assert v[|u|] == r;
      assert (u + w)[i] == v[if i < |u| then i else i + 1];
    }
    if SectionOf(r) in Holding(u + w) {
      var i := HoldingKey(u + w, SectionOf(r));
    }
  }

  lemma {:induction false} GoodRunConcat(l: Listener, a: seq<Event>, b: seq<Event>)
    requires GoodRun(l, a) && GoodRun(NotifyAll(l, a), b)
    ensures GoodRun(l, a + b) && NotifyAll(l, a + b) == NotifyAll(NotifyAll(l, a), b)
    decreases |a|
  {
    if a == [] {
      assert [] + b == b;
    } else {
      assert (a + b)[1..] == a[1..] + b;
      GoodRunConcat(Notify(l, a[0]), a[1..], b);
    }
  }

  /** The ranges of `olds` that survive into `news`. */
  ghost function Kept(olds: seq<FlatRange>, news: seq<FlatRange>): seq<FlatRange> {
    if olds == [] then []
    else if Find(news, olds[0]).Some? then [olds[0]] + Kept(olds[1..], news)
    else Kept(olds[1..], news)
  }

  /** The same ranges, read off in the order of `news`. */
  ghost function KeptOld(olds: seq<FlatRange>, news: seq<FlatRange>): seq<FlatRange> {
    if news == [] then []
    else if Find(olds, news[0]).Some? then [Find(olds, news[0]).value] + KeptOld(olds, news[1..])
    else KeptOld(olds, news[1..])
  }

  lemma {:induction false} DeletePass(done: seq<FlatRange>, olds: seq<FlatRange>, news: seq<FlatRange>)
    requires Sorted(done + olds)
    ensures Sorted(done + Kept(olds, news))
    ensures GoodRun(Holding(done + olds), Deletions(olds, news))
    ensures NotifyAll(Holding(done + olds), Deletions(olds, news)) == Holding(done + Kept(olds, news))
    decreases |olds|
  {
    hide Sorted, Holding, Notify, Disjoint, Find;
    HoldingDisjoint(done + olds);
    if olds != [] {
      var r, rest := olds[0], olds[1..];
      assert done + olds == done + [r] + rest;
      if Find(news, r).Some? {
        DeletePass(done + [r], rest, news);
        assert done + Kept(olds, news) == done + [r] + Kept(rest, news);
        assert Deletions(olds, news) == Deletions(rest, news);
      } else {
        DropOne(done, r, rest);
        DeletePass(done, rest, news);
        RunOne(Holding(done + olds), RegionDel(r));
        GoodRunConcat(Holding(done + olds), [RegionDel(r)], Deletions(rest, news));
      }
    }
  }

  lemma DropOne(u: seq<FlatRange>, r: FlatRange, w: seq<FlatRange>)
    requires Sorted(u + [r] + w)
    ensures Sorted(u + w) && SectionOf(r) in Holding(u + [r] + w)
    ensures Notify(Holding(u + [r] + w), RegionDel(r)) == Holding(u + w)
    ensures Sensible(Holding(u + [r] + w), RegionDel(r)) && Disjoint(Holding(u + w))
  {
    SortedWithout(u, r, w);
    HoldingDisjoint(u + w);
    HoldingInsert(u, r, w);
    NotHeld(u, r, w);
  }

  lemma {:induction false} KeptOldSorted(done: seq<FlatRange>, olds: seq<FlatRange>, news: seq<FlatRange>)
    requires Sorted(done + news)
    ensures Sorted(done + KeptOld(olds, news))
    decreases |news|
  {
    if news != [] {
      var r, rest := news[0], news[1..];
      assert done + news == done + [r] + rest;
      var o := Find(olds, r);
      if o.Some? {
        FindSound(olds, r);
        SortedSwap(done, r, rest, o.value);
        KeptOldSorted(done + [o.value], olds, rest);
        assert done + KeptOld(olds, news) == done + [o.value] + KeptOld(olds, rest);
      } else {
        SortedWithout(done, r, rest);
        KeptOldSorted(done, olds, rest);
        assert KeptOld(olds, news) == KeptOld(olds, rest);
      }
    }
  }

  lemma RunOne(l: Listener, e: Event)
    requires Disjoint(l) && Sensible(l, e) && Disjoint(Notify(l, e))
    ensures GoodRun(l, [e]) && NotifyAll(l, [e]) == Notify(l, e)
  {
    assert [e][1..] == [];
    assert GoodRun(Notify(l, e), []);
  }

  /** The view held before range `r` is told about: without it, or with its old version. */
  ghost function Before(u: seq<FlatRange>, r: FlatRange, olds: seq<FlatRange>, w: seq<FlatRange>): seq<FlatRange> {
    match Find(olds, r) {
      case Some(o) => u + [o] + w
      case None => u + w
    }
  }

  lemma AddOne(u: seq<FlatRange>, r: FlatRange, olds: seq<FlatRange>, w: seq<FlatRange>)
    requires Sorted(u + [r] + w)
    ensures GoodRun(Holding(Before(u, r, olds, w)), Addition(olds, r))
    ensures NotifyAll(Holding(Before(u, r, olds, w)), Addition(olds, r)) == Holding(u + [r] + w)
  {
    hide Sorted, Holding, NotifyAll, GoodRun;
    HoldingInsert(u, r, w);
    HoldingDisjoint(u + [r] + w);
    if Find(olds, r).Some? {
      var o := Find(olds, r).value;
      FindSound(olds, r);
      SortedSwap(u, r, w, o);
      HoldingInsert(u, o, w);
      HoldingDisjoint(u + [o] + w);
      var l := Holding(u + [o] + w);
      RunOne(l, RegionNop(r));
      if LogChange(o, r) != [] {
        RunOne(l, LogChange(o, r)[0]);
        GoodRunConcat(l, [RegionNop(r)], LogChange(o, r));
      } else {
        assert Addition(olds, r) == [RegionNop(r)];
      }
    } else {
      NotHeld(u, r, w);
      SortedWithout(u, r, w);
      HoldingDisjoint(u + w);
      RunOne(Holding(u + w), RegionAdd(r));
    }
  }

  lemma {:induction false} AddPass(done: seq<FlatRange>, olds: seq<FlatRange>, news: seq<FlatRange>)
    requires Sorted(done + news)
    ensures GoodRun(Holding(done + KeptOld(olds, news)), Additions(olds, news))
    ensures NotifyAll(Holding(done + KeptOld(olds, news)), Additions(olds, news)) == Holding(done + news)
    decreases |news|
  {
    hide Sorted, Holding, Notify;
    if news == [] {
      HoldingDisjoint(done + news);
    } else {
      var r, rest := news[0], news[1..];
      var kept := KeptOld(olds, rest);
      assert done + news == done + [r] + rest;
      KeptOldSorted(done + [r], olds, rest);
      AddOne(done, r, olds, kept);
      AddPass(done + [r], olds, rest);
      assert done + KeptOld(olds, news) == Before(done, r, olds, kept);
      GoodRunConcat(Holding(done + KeptOld(olds, news)), Addition(olds, r), Additions(olds, rest));
    }
  }

  /** Two sorted views with the same ranges are held alike. */
  lemma HoldingSame(u: seq<FlatRange>, v: seq<FlatRange>)
    requires Sorted(u) && Sorted(v)
    requires forall r :: r in u <==> r in v
    ensures Holding(u) == Holding(v)
  {
    hide Sorted, Holding;
    forall s | s in Holding(u)
      ensures s in Holding(v) && Holding(u)[s] == Holding(v)[s]
    {
      HeldInBoth(u, v, s);
    }
    forall s | s in Holding(v)
      ensures s in Holding(u)
    {
      HeldInBoth(v, u, s);
    }
  }

  lemma HeldInBoth(u: seq<FlatRange>, v: seq<FlatRange>, s: Section)
    requires Sorted(u) && Sorted(v) && s in Holding(u)
    requires forall r :: r in u <==> r in v
    ensures s in Holding(v) && Holding(u)[s] == Holding(v)[s]
  {
    hide Sorted, Holding;
    var i := HoldingKey(u, s);
    assert u[i] in v;
    var j :| 0 <= j < |v| && v[j] == u[i];
    HoldingAt(u, i);
    HoldingAt(v, j);
  }

  lemma {:induction false} KeptMember(olds: seq<FlatRange>, news: seq<FlatRange>, o: FlatRange)
    ensures o in Kept(olds, news) <==> o in olds && Find(news, o).Some?
  {
    if olds != [] {
      KeptMember(olds[1..], news, o);
    }
  }

  lemma {:induction false} KeptOldMember(olds: seq<FlatRange>, news: seq<FlatRange>, o: FlatRange)
    ensures o in KeptOld(olds, news) <==> exists r :: r in news && Find(olds, r) == Some(o)
  {
    if news != [] {
      KeptOldMember(olds, news[1..], o);
      if r :| r in news && Find(olds, r) == Some(o) {
        assert r == news[0] || r in news[1..];
      }
    }
  }

  lemma FindOwn(v: seq<FlatRange>, o: FlatRange, r: FlatRange)
    requires Sorted(v) && o in v && FlatRangeEqual(o, r)
    ensures Find(v, r) == Some(o)
  {
    var i :| 0 <= i < |v| && v[i] == o;
    FindAt(v, i, r);
  }

  lemma KeptAgree(olds: seq<FlatRange>, news: seq<FlatRange>, o: FlatRange)
    requires Sorted(olds) && Sorted(news)
    ensures o in Kept(olds, news) <==> o in KeptOld(olds, news)
  {
    hide Sorted;
    KeptMember(olds, news, o);
    KeptOldMember(olds, news, o);
    if o in Kept(olds, news) {
      FindSound(news, o);
      FindOwn(olds, o, Find(news, o).value);
    }
    if o in KeptOld(olds, news) {
      var r :| r in news && Find(olds, r) == Some(o);
      FindSound(olds, r);
      FindOwn(news, r, o);
    }
  }

  lemma KeptHeldAlike(olds: seq<FlatRange>, news: seq<FlatRange>)
    requires Sorted(olds) && Sorted(news)
    ensures Holding(Kept(olds, news)) == Holding(KeptOld(olds, news))
  {
    hide *;
    var u, v := Kept(olds, news), KeptOld(olds, news);
    assert [] + olds == olds && [] + news == news && [] + u == u && [] + v == v;
    DeletePass([], olds, news);
    KeptOldSorted([], olds, news);
    forall o
      ensures o in u <==> o in v
    {
      KeptAgree(olds, news, o);
    }
    HoldingSame(u, v);
  }

  /** The delete pass followed by the add pass turns a listener that holds the old view into one that
      holds the new view, by events that each make sense to it, and keeps its sections disjoint. */
  lemma DiffIsExact(olds: seq<FlatRange>, news: seq<FlatRange>)
    requires Sorted(olds) && Sorted(news)
    ensures GoodRun(Holding(olds), Deletions(olds, news) + Additions(olds, news))
    ensures NotifyAll(Holding(olds), Deletions(olds, news) + Additions(olds, news)) == Holding(news)
  {
    assert [] + olds == olds && [] + news == news;
    assert [] + Kept(olds, news) == Kept(olds, news) && [] + KeptOld(olds, news) == KeptOld(olds, news);
    DeletePass([], olds, news);
    KeptHeldAlike(olds, news);
    AddPass([], olds, news);
    GoodRunConcat(Holding(olds), Deletions(olds, news), Additions(olds, news));
  }

  /** The ranges that events tell a reloading listener about: those added and those kept. */
  ghost function Reloaded(events: seq<Event>): seq<FlatRange> {
    if events == [] then [] else Reload(events[0]) + Reloaded(events[1..])
  }

  ghost function Reload(e: Event): seq<FlatRange> {
    if e.RegionAdd? || e.RegionNop? then [e.range] else []
  }

  lemma {:induction false} ReloadedConcat(a: seq<Event>, b: seq<Event>)
    ensures Reloaded(a + b) == Reloaded(a) + Reloaded(b)
  {
    hide Reload;
    if a == [] {
      assert [] + b == b;
    } else {
      assert (a + b)[0] == a[0] && (a + b)[1..] == a[1..] + b;
      ReloadedConcat(a[1..], b);
      assert Reload(a[0]) + (Reloaded(a[1..]) + Reloaded(b)) == Reload(a[0]) + Reloaded(a[1..]) + Reloaded(b);
    }
  }

  lemma ReloadedEmpty()
    ensures Reloaded([]) == []
  {
  }

  lemma ReloadedNext(events: seq<Event>, j: nat, k: nat)
    requires j < |events| && k <= |Reloaded(events)| && Reloaded(events[..j]) == Reloaded(events)[..k]
    ensures var r := Reload(events[j]);
      && k + |r| <= |Reloaded(events)|
      && (r != [] ==> Reloaded(events)[k] == events[j].range)
      && Reloaded(events[..j + 1]) == Reloaded(events)[..k + |r|]
  {
    assert events == events[..j + 1] + events[j + 1..] && events[..j + 1] == events[..j] + [events[j]];
    ReloadedConcat(events[..j + 1], events[j + 1..]);
    ReloadedConcat(events[..j], [events[j]]);
    assert [events[j]][1..] == [];
  }

  lemma {:induction false} DeletionsReloadNothing(olds: seq<FlatRange>, news: seq<FlatRange>)
    ensures Reloaded(Deletions(olds, news)) == []
  {
    if olds != [] {
      DeletionsReloadNothing(olds[1..], news);
      ReloadedConcat(Deletion(olds[0], news), Deletions(olds[1..], news));
    }
  }

  /** Every range of the new view is either added or kept, once, and in address order. */
  lemma {:induction false} AdditionsReloadAll(olds: seq<FlatRange>, news: seq<FlatRange>)
    ensures Reloaded(Additions(olds, news)) == news
  {
    if news != [] {
      AdditionsReloadAll(olds, news[1..]);
      ReloadedConcat(Addition(olds, news[0]), Additions(olds, news[1..]));
      var es := Addition(olds, news[0]);
      assert Reloaded(es[1..]) == [];
      assert Reloaded(es) == [news[0]];
    }
  }
}
