/** Flattened views of a region graph: rendering and simplification (memory.c). */
module FlatViews {
  import opened Prelude
  import opened RegionGraph

  /** A range of the global map, with absolute addresses. */
  datatype FlatRange = FlatRange(
    mr: RegionId,
    offset: int,
    addr: AddrRange,
    dirtyLogMask: bv8,
    readable: bool,
    readonly: bool)
  {
    function OwnerAt(x: int): Owner {
      Owner(mr, offset + x - addr.start, dirtyLogMask, readable, readonly)
    }
  }

  /** Non-empty ranges, in address order, that do not overlap. */
  ghost predicate Sorted(v: seq<FlatRange>) {
    && (forall i | 0 <= i < |v| :: v[i].addr.size > 0)
    && (forall i, j | 0 <= i < j < |v| :: v[i].addr.End() <= v[j].addr.start)
  }

  /** What a view shows at address `x`. */
  ghost function Lookup(v: seq<FlatRange>, x: int): Option<Owner> {
    if v == [] then None
    else if v[0].addr.Contains(x) then Some(v[0].OwnerAt(x))
    else Lookup(v[1..], x)
  }

  lemma {:induction false} LookupConcat(a: seq<FlatRange>, b: seq<FlatRange>, x: int)
    ensures Lookup(a + b, x) == if Lookup(a, x).Some? then Lookup(a, x) else Lookup(b, x)
  {
    if a == [] {
      assert a + b == b;
    } else {
      assert (a + b)[1..] == a[1..] + b;
      LookupConcat(a[1..], b, x);
    }
  }

  lemma LookupOne(fr: FlatRange, x: int)
    ensures Lookup([fr], x) == if fr.addr.Contains(x) then Some(fr.OwnerAt(x)) else None
  {
    assert [fr][1..] == [];
  }

  lemma {:induction false} LookupNone(v: seq<FlatRange>, x: int)
    requires forall i | 0 <= i < |v| :: !v[i].addr.Contains(x)
    ensures Lookup(v, x) == None
  {
    if v != [] {
      LookupNone(v[1..], x);
    }
  }

  lemma {:induction false} LookupAt(v: seq<FlatRange>, i: nat, x: int)
    requires Sorted(v) && i < |v| && v[i].addr.Contains(x)
    ensures Lookup(v, x) == Some(v[i].OwnerAt(x))
  {
    if i > 0 {
      assert v[0].addr.End() <= v[i].addr.start;
      LookupAt(v[1..], i - 1, x);
    }
  }

  lemma {:induction false} LookupHit(v: seq<FlatRange>, x: int) returns (i: nat)
    requires Lookup(v, x).Some?
    ensures i < |v| && v[i].addr.Contains(x) && Lookup(v, x) == Some(v[i].OwnerAt(x))
  {
    if v[0].addr.Contains(x) {
      i := 0;
    } else {
      var j := LookupHit(v[1..], x);
      i := j + 1;
    }
  }

  /** Position `pos` of the view has room for the range `fr`. */
  ghost predicate FitsAt(v: seq<FlatRange>, pos: nat, fr: FlatRange) {
    && pos <= |v|
    && fr.addr.size > 0
    && (pos > 0 ==> v[pos - 1].addr.End() <= fr.addr.start)
    && (pos < |v| ==> fr.addr.End() <= v[pos].addr.start)
  }

  lemma FitsClear(v: seq<FlatRange>, pos: nat, fr: FlatRange)
    requires Sorted(v) && FitsAt(v, pos, fr)
    ensures forall i | 0 <= i < pos :: v[i].addr.End() <= fr.addr.start
    ensures forall i | pos <= i < |v| :: fr.addr.End() <= v[i].addr.start
  {
    assert forall i | 0 <= i < pos - 1 :: v[i].addr.End() <= v[pos - 1].addr.start;
    assert forall i | pos < i < |v| :: v[pos].addr.End() <= v[i].addr.start;
  }

  lemma InsertedSorted(v: seq<FlatRange>, pos: nat, fr: FlatRange)
    requires Sorted(v) && FitsAt(v, pos, fr)
    ensures Sorted(Inserted(v, pos, fr))
  {
    hide Inserted;
    FitsClear(v, pos, fr);
    var w := Inserted(v, pos, fr);
    forall a, b | 0 <= a < b < |w|
      ensures w[a].addr.End() <= w[b].addr.start
    {
      InsertedAt(v, pos, fr, a);
      InsertedAt(v, pos, fr, b);
    }
    forall a | 0 <= a < |w|
      ensures w[a].addr.size > 0
    {
      InsertedAt(v, pos, fr, a);
    }
  }

  /** A range dropped into a gap of the view adds exactly its own addresses. */
  lemma LookupInserted(v: seq<FlatRange>, pos: nat, fr: FlatRange, x: int)
    requires Sorted(v) && FitsAt(v, pos, fr)
    ensures Lookup(Inserted(v, pos, fr), x) ==
            if fr.addr.Contains(x) then Some(fr.OwnerAt(x)) else Lookup(v, x)
    ensures fr.addr.Contains(x) ==> Lookup(v, x) == None
  {
    LookupConcat(v[..pos] + [fr], v[pos..], x);
    LookupConcat(v[..pos], [fr], x);
    LookupConcat(v[..pos], v[pos..], x);
    assert v[..pos] + v[pos..] == v;
    if fr.addr.Contains(x) {
      FitsClear(v, pos, fr);
      LookupNone(v, x);
    }
  }

  predicate CanMerge(a: FlatRange, b: FlatRange) {
    && a.addr.End() == b.addr.start
    && a.mr == b.mr
    && a.offset + a.addr.size == b.offset
    && a.dirtyLogMask == b.dirtyLogMask
    && a.readable == b.readable
    && a.readonly == b.readonly
  }

  ghost predicate Simplified(v: seq<FlatRange>) {
    forall i | 0 < i < |v| :: !CanMerge(v[i - 1], v[i])
  }

  ghost predicate SameLookup(u: seq<FlatRange>, v: seq<FlatRange>) {
    forall x {:trigger Lookup(u, x)} {:trigger Lookup(v, x)} :: Lookup(u, x) == Lookup(v, x)
  }

  /** A sorted, simplified view is determined by what it shows: there is only one. */
  lemma {:induction false} SimplifiedIsUnique(u: seq<FlatRange>, v: seq<FlatRange>)
    requires Sorted(u) && Sorted(v) && Simplified(u) && Simplified(v)
    requires SameLookup(u, v)
    ensures u == v
  {
    if u == [] {
      if v != [] {
        assert Lookup(v, v[0].addr.start).Some?;
        assert false;
      }
    } else if v == [] {
      assert Lookup(u, u[0].addr.start).Some?;
      assert false;
    } else {
      SameHead(u, v);
      forall x
        ensures Lookup(u[1..], x) == Lookup(v[1..], x)
      {
        if u[0].addr.Contains(x) {
          LookupNone(u[1..], x);
          LookupNone(v[1..], x);
        } else {
          assert Lookup(u, x) == Lookup(v, x);
        }
      }
      SimplifiedIsUnique(u[1..], v[1..]);
      assert u == [u[0]] + u[1..] && v == [v[0]] + v[1..];
    }
  }

  lemma StartsNoLater(u: seq<FlatRange>, v: seq<FlatRange>)
    requires Sorted(u) && Sorted(v) && u != [] && v != []
    requires SameLookup(u, v)
    ensures u[0].addr.start <= v[0].addr.start
  {
    var x := v[0].addr.start;
    assert Lookup(v, x).Some?;
    var i := LookupHit(u, x);
    assert i > 0 ==> u[0].addr.End() <= u[i].addr.start;
  }

  lemma EndsNoEarlier(u: seq<FlatRange>, v: seq<FlatRange>)
    requires Sorted(u) && Sorted(v) && Simplified(u) && u != [] && v != []
    requires u[0].addr.start == v[0].addr.start
    requires SameLookup(u, v)
    ensures u[0].addr.End() >= v[0].addr.End()
  {
    var s := u[0].addr.start;
    LookupAt(u, 0, s);
    LookupAt(v, 0, s);
    assert Lookup(u, s) == Lookup(v, s);
    var x := u[0].addr.End();
    if x < v[0].addr.End() {
      LookupAt(v, 0, x);
      assert Lookup(u, x) == Lookup(v, x);
      var i := LookupHit(u, x);
      assert i > 0;
      assert CanMerge(u[0], u[1]);
      assert false;
    }
  }

  lemma SameHead(u: seq<FlatRange>, v: seq<FlatRange>)
    requires Sorted(u) && Sorted(v) && Simplified(u) && Simplified(v) && u != [] && v != []
    requires SameLookup(u, v)
    ensures u[0] == v[0]
  {
    StartsNoLater(u, v);
    StartsNoLater(v, u);
    EndsNoEarlier(u, v);
    EndsNoEarlier(v, u);
    LookupAt(u, 0, u[0].addr.start);
    LookupAt(v, 0, u[0].addr.start);
    assert Lookup(u, u[0].addr.start) == Lookup(v, u[0].addr.start);
  }

  /** `v` is the flattening of the graph seen from `root`. */
  ghost predicate IsRendering(g: Graph, root: Option<RegionId>, v: seq<FlatRange>)
    requires Acyclic(g) && (root.Some? ==> root.value in g)
  {
    && Sorted(v)
    && Simplified(v)
    && forall x :: Lookup(v, x) == Visible(g, root, x)
  }

  lemma RenderingIsUnique(g: Graph, root: Option<RegionId>, u: seq<FlatRange>, v: seq<FlatRange>)
    requires Acyclic(g) && (root.Some? ==> root.value in g)
    requires IsRendering(g, root, u) && IsRendering(g, root, v)
    ensures u == v
  {
    forall x
      ensures Lookup(u, x) == Lookup(v, x)
    {
      assert Lookup(u, x) == Visible(g, root, x);
    }
    SimplifiedIsUnique(u, v);
  }

  /** What rendering region `mr` adds to a view: an address keeps the owner it had, and
      otherwise takes the resolver's answer inside `clip`. */
  ghost predicate Rendered(was: seq<FlatRange>, now: seq<FlatRange>, g: Graph, rank: Rank, mr: RegionId,
                           base: int, clip: AddrRange, readonly: bool)
    requires Ranked(g, rank) && mr in g
  {
    forall x {:trigger Lookup(now, x)} :: Lookup(now, x) ==
      Over(Lookup(was, x), if clip.Contains(x) then Resolve(g, rank, mr, base, readonly, x) else None)
  }

  ghost predicate RenderedFirst(was: seq<FlatRange>, now: seq<FlatRange>, g: Graph, rank: Rank, subs: seq<RegionId>,
                                bound: nat, base: int, clip: AddrRange, readonly: bool)
    requires Ranked(g, rank)
    requires forall s | s in subs :: s in g && rank[s] < bound
  {
    forall x {:trigger Lookup(now, x)} :: Lookup(now, x) ==
      Over(Lookup(was, x), if clip.Contains(x) then ResolveFirst(g, rank, subs, bound, base, readonly, x) else None)
  }

  lemma RenderedSnoc(v0: seq<FlatRange>, v1: seq<FlatRange>, v2: seq<FlatRange>, g: Graph, rank: Rank,
                     subs: seq<RegionId>, last: RegionId, bound: nat, base: int, clip: AddrRange, readonly: bool)
    requires Ranked(g, rank)
    requires forall s | s in subs + [last] :: s in g && rank[s] < bound
    requires last in g
    requires forall s | s in subs :: s in g && rank[s] < bound
    requires RenderedFirst(v0, v1, g, rank, subs, bound, base, clip, readonly)
    requires Rendered(v1, v2, g, rank, last, base, clip, readonly)
    ensures RenderedFirst(v0, v2, g, rank, subs + [last], bound, base, clip, readonly)
  {
    forall x {:trigger Lookup(v2, x)}
      ensures Lookup(v2, x) == Over(Lookup(v0, x),
        if clip.Contains(x) then ResolveFirst(g, rank, subs + [last], bound, base, readonly, x) else None)
    {
      ResolveFirstSnoc(g, rank, subs, last, bound, base, readonly, x);
      assert Lookup(v1, x) == Over(Lookup(v0, x),
        if clip.Contains(x) then ResolveFirst(g, rank, subs, bound, base, readonly, x) else None);
    }
  }

  /** `now` is `was` with the gaps of [from, to) filled by ranges like `like`, whose region starts at `base`. */
  ghost predicate GapsFilled(was: seq<FlatRange>, now: seq<FlatRange>, from: int, to: int, base: int, like: FlatRange) {
    forall x {:trigger Lookup(now, x)} :: Lookup(now, x) ==
      Over(Lookup(was, x),
        if from <= x < to then Some(Owner(like.mr, x - base, like.dirtyLogMask, like.readable, like.readonly))
        else None)
  }

  lemma NotEmptyAt(v: seq<FlatRange>, i: nat)
    requires Sorted(v) && i < |v|
    ensures v[i].addr.size > 0
  {
  }

  lemma FillNothing(was: seq<FlatRange>, from: int, base: int, like: FlatRange)
    ensures GapsFilled(was, was, from, from, base, like)
  {
  }

  lemma FillGap(was: seq<FlatRange>, v: seq<FlatRange>, pos: nat, fr: FlatRange, from: int, base: int, like: FlatRange)
    requires Sorted(v) && FitsAt(v, pos, fr) && from <= fr.addr.start && fr.offset == fr.addr.start - base
    requires fr == like.(offset := fr.offset, addr := fr.addr)
    requires GapsFilled(was, v, from, fr.addr.start, base, like)
    ensures GapsFilled(was, Inserted(v, pos, fr), from, fr.addr.End(), base, like)
    ensures Sorted(Inserted(v, pos, fr))
  {
    hide Sorted;
    InsertedSorted(v, pos, fr);
    var w := Inserted(v, pos, fr);
    forall x {:trigger Lookup(w, x)}
      ensures Lookup(w, x) == Over(Lookup(was, x),
        if from <= x < fr.addr.End() then Some(Owner(fr.mr, x - base, fr.dirtyLogMask, fr.readable, fr.readonly))
        else None)
    {
      LookupInserted(v, pos, fr, x);
      assert Lookup(v, x) == Lookup(v, x);
    }
  }

  lemma SkipOwned(was: seq<FlatRange>, v: seq<FlatRange>, i: nat, from: int, to: int, to': int, base: int,
                  like: FlatRange)
    requires Sorted(v) && i < |v| && v[i].addr.start <= to <= to' <= v[i].addr.End()
    requires GapsFilled(was, v, from, to, base, like)
    ensures GapsFilled(was, v, from, to', base, like)
  {
    forall x {:trigger Lookup(v, x)}
      ensures Lookup(v, x) == Over(Lookup(was, x),
        if from <= x < to' then Some(Owner(like.mr, x - base, like.dirtyLogMask, like.readable, like.readonly))
        else None)
    {
      if to <= x < to' {
        LookupAt(v, i, x);
      }
    }
  }

  /** The part of `clip` that a region placed at `base` occupies. */
  function Cut(r: Region, base: int, clip: AddrRange): AddrRange {
    AddrRange(base + r.addr, r.size).Intersection(clip)
  }

  lemma RenderedAlias(was: seq<FlatRange>, now: seq<FlatRange>, g: Graph, rank: Rank, mr: RegionId,
                      base: int, clip: AddrRange, readonly: bool)
    requires Ranked(g, rank) && mr in g && g[mr].enabled && g[mr].alias.Some?
    requires Rendered(was, now, g, rank, g[mr].alias.value,
                      base + g[mr].addr - g[g[mr].alias.value].addr - g[mr].aliasOffset,
                      Cut(g[mr], base, clip), readonly || g[mr].readonly)
    ensures Rendered(was, now, g, rank, mr, base, clip, readonly)
  {
  }

  lemma RenderedOwn(was: seq<FlatRange>, after: seq<FlatRange>, now: seq<FlatRange>, g: Graph, rank: Rank, mr: RegionId,
                    base: int, clip: AddrRange, readonly: bool)
    requires Ranked(g, rank) && mr in g && g[mr].enabled && g[mr].alias.None?
    requires RenderedFirst(was, after, g, rank, g[mr].subregions, rank[mr], base + g[mr].addr,
                           Cut(g[mr], base, clip), readonly || g[mr].readonly)
    requires if g[mr].terminates then
               GapsFilled(after, now, Cut(g[mr], base, clip).start, Cut(g[mr], base, clip).End(), base + g[mr].addr,
                          FlatRange(mr, 0, Cut(g[mr], base, clip), g[mr].dirtyLogMask, g[mr].readable,
                                    readonly || g[mr].readonly))
             else now == after
    ensures Rendered(was, now, g, rank, mr, base, clip, readonly)
  {
    forall x {:trigger Lookup(now, x)}
      ensures Lookup(now, x) ==
              Over(Lookup(was, x), if clip.Contains(x) then Resolve(g, rank, mr, base, readonly, x) else None)
    {
      assert Lookup(after, x) == Lookup(after, x);
    }
  }

  /** The run `v[i..j]` and the single range `m` show the same, and end alike. */
  ghost predicate MergesTo(v: seq<FlatRange>, i: nat, j: nat, m: FlatRange)
    requires i < j <= |v|
  {
    && m.addr.start == v[i].addr.start
    && m.addr.End() == v[j - 1].addr.End()
    && m.addr.size > 0
    && m == v[j - 1].(offset := m.offset, addr := m.addr)
    && m.offset + m.addr.size == v[j - 1].offset + v[j - 1].addr.size
    && forall x {:trigger Lookup(v[i..j], x)} :: Lookup(v[i..j], x) == Lookup([m], x)
  }

  lemma MergeNext(v: seq<FlatRange>, i: nat, j: nat, m: FlatRange, m': FlatRange)
    requires Sorted(v) && i < j < |v| && MergesTo(v, i, j, m) && CanMerge(v[j - 1], v[j])
    requires m' == m.(addr := AddrRange(m.addr.start, m.addr.size + v[j].addr.size))
    ensures MergesTo(v, i, j + 1, m')
  {
    forall x {:trigger Lookup(v[i..j + 1], x)}
      ensures Lookup(v[i..j + 1], x) == Lookup([m'], x)
    {
      assert v[i..j + 1] == v[i..j] + [v[j]];
      LookupConcat(v[i..j], [v[j]], x);
      LookupOne(v[j], x);
      LookupOne(m, x);
      LookupOne(m', x);
    }
  }

  lemma MergedSorted(v: seq<FlatRange>, i: nat, j: nat, m: FlatRange)
    requires Sorted(v) && i < j <= |v| && m.addr.size > 0
    requires m.addr.start == v[i].addr.start && m.addr.End() == v[j - 1].addr.End()
    ensures Sorted(v[..i] + [m] + v[j..])
  {
    var w := v[..i] + [m] + v[j..];
    assert forall k | 0 <= k < i :: v[k].addr.End() <= v[i].addr.start;
    assert forall k | j <= k < |v| :: v[j - 1].addr.End() <= v[k].addr.start;
    forall a, b | 0 <= a < b < |w|
      ensures w[a].addr.End() <= w[b].addr.start
    {
      assert a < i ==> w[a] == v[a];
      assert b < i ==> w[b] == v[b];
      assert b > i ==> w[b] == v[b - i - 1 + j];
      assert a > i ==> w[a] == v[a - i - 1 + j];
    }
  }

  lemma MergedLookup(v: seq<FlatRange>, i: nat, j: nat, m: FlatRange, x: int)
    requires i < j <= |v| && MergesTo(v, i, j, m)
    ensures Lookup(v[..i] + [m] + v[j..], x) == Lookup(v, x)
  {
    hide Lookup;
    assert v == v[..i] + v[i..j] + v[j..];
    LookupConcat(v[..i] + v[i..j], v[j..], x);
    LookupConcat(v[..i], v[i..j], x);
    LookupConcat(v[..i] + [m], v[j..], x);
    LookupConcat(v[..i], [m], x);
  }

  class FlatView {
    var ranges: seq<FlatRange>

    constructor ()
      ensures ranges == []
    {
      ranges := [];
    }

    method Insert(pos: nat, range: FlatRange)
      requires pos <= |ranges|
      modifies this
      ensures ranges == Inserted(old(ranges), pos, range)
    {
      ranges := ranges[..pos] + [range] + ranges[pos..];
    }

    /** The region's own part of rendering: fill every gap of the view inside `clip`. */
    method FillGaps(base0: int, clip: AddrRange, like: FlatRange)
      requires Sorted(ranges) && clip.size >= 0 && base0 <= clip.start
      modifies this
      ensures Sorted(ranges)
      ensures GapsFilled(old(ranges), ranges, clip.start, clip.End(), base0, like)
    {
      hide Sorted, GapsFilled;
      ghost var was := ranges;
      var offset := clip.start - base0;
      var base := clip.start;
      var remain := clip.size;
      var i := 0;
      FillNothing(was, clip.start, base0, like);
      while i < |ranges| && remain != 0
        invariant 0 <= i <= |ranges| && Sorted(ranges)
        invariant remain >= 0 && base + remain == clip.End() && offset == base - base0 && clip.start <= base
        invariant remain > 0 && i > 0 ==> ranges[i - 1].addr.End() <= base
        invariant GapsFilled(was, ranges, clip.start, base, base0, like)
        decreases |ranges| - i
      {
        NotEmptyAt(ranges, i);
        if base >= ranges[i].addr.End() {
          i := i + 1;
          continue;
        }
        if base < ranges[i].addr.start {
          var now := Min(remain, ranges[i].addr.start - base);
          var fr := like.(offset := offset, addr := AddrRange(base, now));
          FillGap(was, ranges, i, fr, clip.start, base0, like);
          Insert(i, fr);
          i := i + 1;
          NotEmptyAt(ranges, i);
          base := base + now;
          offset := offset + now;
          remain := remain - now;
        }
        var now := Min(base + remain, ranges[i].addr.End()) - base;
        if now > 0 {
          SkipOwned(was, ranges, i, clip.start, base, base + now, base0, like);
        }
        base := base + now;
        offset := offset + now;
        remain := remain - now;
        i := i + 1;
      }
      if remain != 0 {
        var fr := like.(offset := offset, addr := AddrRange(base, remain));
        FillGap(was, ranges, i, fr, clip.start, base0, like);
        Insert(i, fr);
      }
    }

    /** Render region `mr`, placed at `base`, into the gaps of the view inside `clip`. */
    method Render(g: Graph, ghost rank: Rank, mr: RegionId, base: int, clip: AddrRange, readonly: bool)
      requires Ranked(g, rank) && mr in g && Sorted(ranges) && clip.size >= 0
      modifies this
      ensures Sorted(ranges)
      ensures Rendered(old(ranges), ranges, g, rank, mr, base, clip, readonly)
      decreases rank[mr], 1
    {
      ghost var was := ranges;
      RankedAt(g, rank, mr);
      var r := g[mr];
      if !r.enabled {
        return;
      }
      var here := base + r.addr;
      var ro := readonly || r.readonly;
      var whole := AddrRange(here, r.size);
      if !whole.Intersects(clip) {
        return;
      }
      var cut := whole.Intersection(clip);
      if r.alias.Some? {
        Render(g, rank, r.alias.value, here - g[r.alias.value].addr - r.aliasOffset, cut, ro);
        RenderedAlias(was, ranges, g, rank, mr, base, clip, readonly);
        return;
      }
      RenderSubregions(g, rank, mr, here, cut, ro);
      ghost var after := ranges;
      if r.terminates {
        FillGaps(here, cut, FlatRange(mr, 0, cut, r.dirtyLogMask, r.readable, ro));
      }
      RenderedOwn(was, after, ranges, g, rank, mr, base, clip, readonly);
    }

    /** Render the subregions of `mr`, those that obscure the others first. */
    method RenderSubregions(g: Graph, ghost rank: Rank, mr: RegionId, base: int, clip: AddrRange, readonly: bool)
      requires Ranked(g, rank) && mr in g && Sorted(ranges) && clip.size >= 0
      modifies this
      ensures Sorted(ranges)
      ensures RenderedFirst(old(ranges), ranges, g, rank, g[mr].subregions, rank[mr], base, clip, readonly)
      decreases rank[mr], 0
    {
      RankedAt(g, rank, mr);
      var subs := g[mr].subregions;
      ghost var was := ranges;
      var k := 0;
      while k < |subs|
        invariant k <= |subs| && Sorted(ranges)
        invariant RenderedFirst(was, ranges, g, rank, subs[..k], rank[mr], base, clip, readonly)
      {
        ghost var before := ranges;
        Render(g, rank, subs[k], base, clip, readonly);
        assert subs[..k] + [subs[k]] == subs[..k + 1];
        RenderedSnoc(was, before, ranges, g, rank, subs[..k], subs[k], rank[mr], base, clip, readonly);
        k := k + 1;
      }
      assert subs[..k] == subs;
    }

    /** Merge adjacent ranges. */
    method Simplify()
      requires Sorted(ranges)
      modifies this
      ensures Sorted(ranges) && Simplified(ranges)
      ensures SameLookup(ranges, old(ranges))
    {
      hide Sorted, Lookup;
      ghost var was := ranges;
      var i := 0;
      while i < |ranges|
        invariant i <= |ranges| && Sorted(ranges)
        invariant forall k | 0 < k <= i && k < |ranges| :: !CanMerge(ranges[k - 1], ranges[k])
        invariant SameLookup(ranges, was)
        decreases |ranges| - i
      {
        ghost var v := ranges;
        var j := MergeRun(i);
        var m := ranges[i];
        MergedSorted(v, i, j, m);
        forall x
          ensures Lookup(v[..i] + [m] + v[j..], x) == Lookup(was, x)
        {
          MergedLookup(v, i, j, m, x);
        }
        assert ranges[..i + 1] + ranges[j..] == v[..i] + [m] + v[j..];
        i := i + 1;
        ranges := ranges[..i] + ranges[j..];
        assert i < |ranges| ==> ranges[i] == v[j];
      }
    }

    /** The inner loop of simplification: grow `ranges[i]` over the mergeable run that starts there. */
    method MergeRun(i: nat) returns (j: nat)
      requires Sorted(ranges) && i < |ranges|
      modifies this
      ensures i < j <= |ranges| == |old(ranges)|
      ensures ranges == old(ranges)[i := ranges[i]]
      ensures MergesTo(old(ranges), i, j, ranges[i])
      ensures j < |ranges| ==> !CanMerge(old(ranges)[j - 1], old(ranges)[j])
      ensures i > 0 ==> CanMerge(ranges[i - 1], ranges[i]) == CanMerge(ranges[i - 1], old(ranges)[i])
    {
      ghost var v := ranges;
      j := i + 1;
      assert v[i..j] == [v[i]];
      while j < |ranges| && CanMerge(ranges[j - 1], ranges[j])
        invariant i < j <= |ranges| == |v|
        invariant ranges == v[i := ranges[i]] && (j == i + 1 ==> ranges[i] == v[i])
        invariant ranges[i] == v[i].(addr := ranges[i].addr)
        invariant MergesTo(v, i, j, ranges[i])
      {
        var grown := AddrRange(ranges[i].addr.start, ranges[i].addr.size + ranges[j].addr.size);
        MergeNext(v, i, j, ranges[i], ranges[i].(addr := grown));
        ranges := ranges[i := ranges[i].(addr := grown)];
        j := j + 1;
      }
    }
  }

  /** generate_memory_topology: the one sorted, simplified view that shows what the graph shows. */
  method GenerateTopology(g: Graph, ghost rank: Rank, root: Option<RegionId>) returns (v: seq<FlatRange>)
    requires Ranked(g, rank) && (root.Some? ==> root.value in g)
    ensures Acyclic(g) && IsRendering(g, root, v)
  {
    var view := new FlatView();
    if root.Some? {
      view.Render(g, rank, root.value, 0, AddrRange(0, ADDRESS_SPACE_SIZE), false);
      forall x
        ensures Lookup(view.ranges, x) == Visible(g, root, x)
      {
        if 0 <= x < ADDRESS_SPACE_SIZE {
          VisibleByRank(g, rank, root.value, x);
        }
      }
    }
    ghost var rendered := view.ranges;
    view.Simplify();
    v := view.ranges;
    forall x
      ensures Lookup(v, x) == Visible(g, root, x)
    {
      assert Lookup(v, x) == Lookup(rendered, x);
    }
  }
}
