/** Region mutators inside nested transactions (memory.c), and when the maps stay right without an update. */
module Memory {
  import opened Prelude
  import opened RegionGraph
  import opened FlatViews
  import opened TopologyDiff

  // When two graphs show the same.

  /** The enabled regions of a list, in order. */
  ghost function Active(g: Graph, subs: seq<RegionId>): seq<RegionId> {
    if subs == [] then []
    else if subs[0] in g && g[subs[0]].enabled then [subs[0]] + Active(g, subs[1..])
    else Active(g, subs[1..])
  }

  /** Region `m` renders alike in both graphs, given its start address. */
  ghost predicate SameRegion(g: Graph, g': Graph, m: RegionId)
    requires m in g && m in g'
  {
    || (!g[m].enabled && !g'[m].enabled)
    || (&& g'[m] == g[m].(addr := g'[m].addr, parent := g'[m].parent, priority := g'[m].priority,
                          mayOverlap := g'[m].mayOverlap, subregions := g'[m].subregions)
        && Active(g, g[m].subregions) == Active(g', g'[m].subregions)
        && forall s | s in Active(g, g[m].subregions) :: s in g && s in g' && g[s].addr == g'[s].addr)
  }

  ghost predicate SameShape(g: Graph, g': Graph) {
    g.Keys == g'.Keys && forall m | m in g :: SameRegion(g, g', m)
  }

  lemma ShapeAt(g: Graph, g': Graph, m: RegionId)
    requires SameShape(g, g') && m in g
    ensures m in g' && SameRegion(g, g', m)
  {
  }

  lemma {:induction false} ActiveMember(g: Graph, subs: seq<RegionId>, s: RegionId)
    ensures s in Active(g, subs) <==> s in subs && s in g && g[s].enabled
  {
    if subs != [] {
      ActiveMember(g, subs[1..], s);
    }
  }

  /** Disabled regions answer for nothing. */
  lemma {:induction false} ResolveActive(g: Graph, rank: Rank, subs: seq<RegionId>, bound: nat, base: int,
                                         readonly: bool, x: int)
    requires Ranked(g, rank)
    requires forall s | s in subs :: s in g && rank[s] < bound
    ensures forall s | s in Active(g, subs) :: s in g && rank[s] < bound
    ensures ResolveFirst(g, rank, subs, bound, base, readonly, x) ==
            ResolveFirst(g, rank, Active(g, subs), bound, base, readonly, x)
    decreases |subs|
  {
    forall s | s in Active(g, subs)
      ensures s in g && rank[s] < bound
    {
      ActiveMember(g, subs, s);
    }
    if subs != [] {
      ResolveActive(g, rank, subs[1..], bound, base, readonly, x);
      var rest := Active(g, subs[1..]);
      if g[subs[0]].enabled {
        assert Active(g, subs)[1..] == rest;
      }
    }
  }

  /** A region placed so that it starts at `here` answers alike in graphs of the same shape. */
  lemma {:induction false} SameResolve(g: Graph, g': Graph, r: Rank, r': Rank, m: RegionId, here: int,
                                       readonly: bool, x: int)
    requires Ranked(g, r) && Ranked(g', r') && SameShape(g, g') && m in g
    ensures Resolve(g, r, m, here - g[m].addr, readonly, x) == Resolve(g', r', m, here - g'[m].addr, readonly, x)
    decreases r[m], 1, 0
  {
    hide Ranked, SameShape;
    ShapeAt(g, g', m);
    RankedAt(g, r, m);
    RankedAt(g', r', m);
    if g[m].enabled {
      var ro := readonly || g[m].readonly;
      if g[m].alias.Some? {
        SameResolve(g, g', r, r', g[m].alias.value, here - g[m].aliasOffset, ro, x);
      } else {
        var active := Active(g, g[m].subregions);
        ResolveActive(g, r, g[m].subregions, r[m], here, ro, x);
        ResolveActive(g', r', g'[m].subregions, r'[m], here, ro, x);
        SameResolveFirst(g, g', r, r', active, r[m], r'[m], here, ro, x);
      }
    }
  }

  lemma {:induction false} SameResolveFirst(g: Graph, g': Graph, r: Rank, r': Rank, subs: seq<RegionId>,
                                            b: nat, b': nat, base: int, readonly: bool, x: int)
    requires Ranked(g, r) && Ranked(g', r') && SameShape(g, g')
    requires forall s | s in subs :: s in g && s in g' && r[s] < b && r'[s] < b' && g[s].addr == g'[s].addr
    ensures ResolveFirst(g, r, subs, b, base, readonly, x) == ResolveFirst(g', r', subs, b', base, readonly, x)
    decreases b, 0, |subs|
  {
    hide Ranked, SameShape, Resolve;
    if subs != [] {
      SameResolve(g, g', r, r', subs[0], base + g[subs[0]].addr, readonly, x);
      SameResolveFirst(g, g', r, r', subs[1..], b, b', base, readonly, x);
    }
  }

  /** Graphs of the same shape show the same from a root that has not moved. */
  lemma SameVisible(g: Graph, g': Graph, root: Option<RegionId>, x: int)
    requires Acyclic(g) && Acyclic(g') && SameShape(g, g') && (root.Some? ==> root.value in g)
    requires root.Some? ==> g[root.value].addr == g'[root.value].addr || !g[root.value].enabled
    ensures Visible(g, root, x) == Visible(g', root, x)
  {
    hide Ranked, SameShape, SameRegion;
    if root.Some? && 0 <= x < ADDRESS_SPACE_SIZE {
      var r :| Ranked(g, r);
      var r' :| Ranked(g', r');
      ShapeAt(g, g', root.value);
      VisibleByRank(g, r, root.value, x);
      VisibleByRank(g', r', root.value, x);
      SameRootResolve(g, g', r, r', root.value, x);
    }
  }

  lemma SameRootResolve(g: Graph, g': Graph, r: Rank, r': Rank, root: RegionId, x: int)
    requires Ranked(g, r) && Ranked(g', r') && SameShape(g, g') && root in g && root in g'
    requires g[root].addr == g'[root].addr || !g[root].enabled
    ensures Resolve(g, r, root, 0, false, x) == Resolve(g', r', root, 0, false, x)
  {
    hide Ranked, SameShape, ResolveFirst;
    ShapeAt(g, g', root);
    if g[root].enabled {
      SameResolve(g, g', r, r', root, g[root].addr, false, x);
    }
  }

  // What the mutators do to the graph.

  /** Parent pointers and subregion lists tell the same story, and list no region twice. */
  ghost predicate LinksOk(g: Graph) {
    forall m | m in g :: LinkedOk(g, m)
  }

  ghost predicate LinkedOk(g: Graph, m: RegionId)
    requires m in g
  {
    && (forall s | s in g[m].subregions :: s in g && g[s].parent == Some(m))
    && (g[m].parent.Some? ==> g[m].parent.value in g && m in g[g[m].parent.value].subregions)
    && NoRepeats(g[m].subregions)
  }

  ghost predicate NoRepeats(subs: seq<RegionId>) {
    forall i, j | 0 <= i < j < |subs| :: subs[i] != subs[j]
  }

  /** Where a region of the given priority goes: before the first that it obscures. */
  function InsertPos(g: Graph, subs: seq<RegionId>, priority: int): (pos: nat)
    ensures pos <= |subs|
  {
    if subs == [] || (subs[0] in g && priority >= g[subs[0]].priority) then 0
    else 1 + InsertPos(g, subs[1..], priority)
  }

  function Added(g: Graph, mr: RegionId, offset: nat, sub: RegionId): Graph
    requires mr in g && sub in g
  {
    var subs := g[mr].subregions;
    var pos := InsertPos(g, subs, g[sub].priority);
    g[sub := g[sub].(parent := Some(mr), addr := offset)]
     [mr := g[mr].(subregions := Inserted(subs, pos, sub))]
  }

  function Without(subs: seq<RegionId>, s: RegionId): seq<RegionId> {
    if subs == [] then [] else if subs[0] == s then Without(subs[1..], s) else [subs[0]] + Without(subs[1..], s)
  }

  function Removed(g: Graph, mr: RegionId, sub: RegionId): Graph
    requires mr in g && sub in g
  {
    g[sub := g[sub].(parent := None)][mr := g[mr].(subregions := Without(g[mr].subregions, sub))]
  }

  lemma {:induction false} WithoutMember(subs: seq<RegionId>, s: RegionId, t: RegionId)
    ensures t in Without(subs, s) <==> t in subs && t != s
  {
    if subs != [] {
      WithoutMember(subs[1..], s, t);
    }
  }

  lemma {:induction false} WithoutDistinct(subs: seq<RegionId>, s: RegionId)
    requires NoRepeats(subs)
    ensures NoRepeats(Without(subs, s))
  {
    if subs != [] {
      WithoutDistinct(subs[1..], s);
      var w := Without(subs[1..], s);
      forall i | 0 <= i < |w|
        ensures w[i] != subs[0]
      {
        WithoutMember(subs[1..], s, w[i]);
      }
    }
  }

  lemma {:induction false} ActiveConcat(g: Graph, a: seq<RegionId>, b: seq<RegionId>)
    ensures Active(g, a + b) == Active(g, a) + Active(g, b)
  {
    if a == [] {
      assert [] + b == b;
    } else {
      assert (a + b)[1..] == a[1..] + b;
      ActiveConcat(g, a[1..], b);
    }
  }

  lemma {:induction false} ActiveSame(g: Graph, g': Graph, subs: seq<RegionId>)
    requires forall s | s in subs :: (s in g && g[s].enabled) <==> (s in g' && g'[s].enabled)
    ensures Active(g, subs) == Active(g', subs)
  {
    if subs != [] {
      ActiveSame(g, g', subs[1..]);
    }
  }

  lemma {:induction false} ActiveWithout(g: Graph, subs: seq<RegionId>, s: RegionId)
    requires s in g && !g[s].enabled
    ensures Active(g, Without(subs, s)) == Active(g, subs)
  {
    if subs != [] {
      ActiveWithout(g, subs[1..], s);
      if subs[0] != s {
        assert Without(subs, s)[1..] == Without(subs[1..], s);
      }
    }
  }

  /** Changing attributes of a disabled region, or attributes that rendering ignores, changes no view. */
  lemma FieldShape(g: Graph, m: RegionId, r: Region)
    requires m in g && r.enabled == g[m].enabled
    requires r.enabled ==> r == g[m].(priority := r.priority, mayOverlap := r.mayOverlap)
    ensures SameShape(g, g[m := r])
  {
    var g' := g[m := r];
    forall n | n in g
      ensures SameRegion(g, g', n)
    {
      ActiveSame(g, g', g[n].subregions);
      forall s | s in Active(g, g[n].subregions)
        ensures s in g && s in g' && g[s].addr == g'[s].addr
      {
        ActiveMember(g, g[n].subregions, s);
      }
    }
  }

  lemma ActiveInsert(g: Graph, subs: seq<RegionId>, pos: nat, s: RegionId)
    requires pos <= |subs| && s in g && !g[s].enabled
    ensures Active(g, subs[..pos] + [s] + subs[pos..]) == Active(g, subs)
  {
    assert subs == subs[..pos] + subs[pos..];
    ActiveConcat(g, subs[..pos], subs[pos..]);
    ActiveConcat(g, subs[..pos] + [s], subs[pos..]);
    ActiveConcat(g, subs[..pos], [s]);
    assert Active(g, [s]) == Active(g, [s][1..]) == [];
  }

  /** Moving a region that nothing lists changes no view, unless it is a root. */
  lemma AddrShape(g: Graph, m: RegionId, addr: nat)
    requires LinksOk(g) && m in g && g[m].parent.None?
    ensures SameShape(g, g[m := g[m].(addr := addr)])
  {
    hide LinksOk;
    var g' := g[m := g[m].(addr := addr)];
    forall n | n in g
      ensures SameRegion(g, g', n)
    {
      UnlinkedElsewhere(g, n, m);
      ActiveSame(g, g', g[n].subregions);
      forall s | s in Active(g, g[n].subregions)
        ensures s in g && s in g' && g[s].addr == g'[s].addr
      {
        ActiveMember(g, g[n].subregions, s);
      }
    }
  }

  /** Linking a region while it or its parent is disabled changes no view. */
  lemma AddShape(g: Graph, mr: RegionId, offset: nat, sub: RegionId)
    requires LinksOk(g) && mr in g && sub in g && mr != sub && g[sub].parent.None?
    requires !(g[mr].enabled && g[sub].enabled)
    ensures SameShape(g, Added(g, mr, offset, sub))
  {
    hide LinksOk;
    var g' := Added(g, mr, offset, sub);
    forall m | m in g
      ensures SameRegion(g, g', m)
    {
      var subs := g[m].subregions;
      UnlinkedElsewhere(g, m, sub);
      ActiveSame(g, g', subs);
      if m == mr && g[mr].enabled {
        ActiveInsert(g', subs, InsertPos(g, subs, g[sub].priority), sub);
      }
      forall s | s in Active(g, subs)
        ensures s in g && s in g' && g[s].addr == g'[s].addr
      {
        ActiveMember(g, subs, s);
      }
    }
  }

  lemma UnlinkedElsewhere(g: Graph, m: RegionId, sub: RegionId)
    requires LinksOk(g) && m in g && sub in g && g[sub].parent.None?
    ensures sub !in g[m].subregions
  {
    assert LinkedOk(g, m);
  }

  /** Unlinking a region while it or its parent is disabled changes no view. */
  lemma RemoveShape(g: Graph, mr: RegionId, sub: RegionId)
    requires mr in g && sub in g && mr != sub && !(g[mr].enabled && g[sub].enabled)
    ensures SameShape(g, Removed(g, mr, sub))
  {
    var g' := Removed(g, mr, sub);
    forall m | m in g
      ensures SameRegion(g, g', m)
    {
      ActiveSame(g, g', g[m].subregions);
      if m == mr && g[mr].enabled {
        ActiveWithout(g', g[mr].subregions, sub);
      }
      forall s | s in Active(g, g[m].subregions)
        ensures s in g && s in g' && g[s].addr == g'[s].addr
      {
        ActiveMember(g, g[m].subregions, s);
      }
    }
  }

  // Well-formedness of the links.

  /** Subregions are listed from the highest priority down, so that rendering meets them in that order. */
  ghost predicate Ordered(g: Graph) {
    forall m | m in g :: ListOrdered(g, g[m].subregions)
  }

  ghost predicate ListOrdered(g: Graph, subs: seq<RegionId>) {
    && (forall s | s in subs :: s in g)
    && forall i, j | 0 <= i < j < |subs| :: g[subs[i]].priority >= g[subs[j]].priority
  }

  lemma ConsOrdered(g: Graph, s: RegionId, w: seq<RegionId>)
    requires ListOrdered(g, w) && s in g && forall t | t in w :: t in g && g[s].priority >= g[t].priority
    ensures ListOrdered(g, [s] + w)
  {
  }

  lemma OrderedIn(g: Graph, subs: seq<RegionId>)
    requires ListOrdered(g, subs)
    ensures forall s | s in subs :: s in g
  {
  }

  lemma UnconsOrdered(g: Graph, subs: seq<RegionId>)
    requires ListOrdered(g, subs) && subs != []
    ensures ListOrdered(g, subs[1..]) && subs[0] in g
    ensures forall t | t in subs :: t in g && g[subs[0]].priority >= g[t].priority
  {
  }

  lemma InsertCons(subs: seq<RegionId>, pos: nat, s: RegionId)
    requires 0 < pos <= |subs|
    ensures Inserted(subs, pos, s) == [subs[0]] + Inserted(subs[1..], pos - 1, s)
  {
  }

  lemma InsertFront(subs: seq<RegionId>, s: RegionId)
    ensures Inserted(subs, 0, s) == [s] + subs
  {
  }

  /** `sub` comes after exactly those of `subs` that have a higher priority, and the others keep their order. */
  ghost predicate PlacedRight(g: Graph, subs: seq<RegionId>, sub: RegionId, list: seq<RegionId>) {
    exists pos :: PlacedAt(g, subs, sub, list, pos)
  }

  ghost predicate PlacedAt(g: Graph, subs: seq<RegionId>, sub: RegionId, list: seq<RegionId>, pos: int) {
    && 0 <= pos <= |subs| && list == subs[..pos] + [sub] + subs[pos..] && sub in g
    && (forall i | 0 <= i < pos :: subs[i] in g && g[subs[i]].priority > g[sub].priority)
    && (forall i | pos <= i < |subs| :: subs[i] in g && g[subs[i]].priority <= g[sub].priority)
  }

  lemma SamePlace(g: Graph, g': Graph, subs: seq<RegionId>, sub: RegionId, list: seq<RegionId>)
    requires PlacedRight(g, subs, sub, list)
    requires g'.Keys == g.Keys && forall m | m in g :: g'[m].priority == g[m].priority
    ensures PlacedRight(g', subs, sub, list)
  {
    var pos :| PlacedAt(g, subs, sub, list, pos);
    assert PlacedAt(g', subs, sub, list, pos);
  }

  lemma {:induction false} InsertPosIs(g: Graph, subs: seq<RegionId>, sub: RegionId)
    requires ListOrdered(g, subs) && sub in g
    ensures PlacedAt(g, subs, sub, Inserted(subs, InsertPos(g, subs, g[sub].priority), sub),
                     InsertPos(g, subs, g[sub].priority))
  {
    if subs != [] && g[sub].priority < g[subs[0]].priority {
      InsertPosIs(g, subs[1..], sub);
      var pos := InsertPos(g, subs[1..], g[sub].priority);
      forall i | 0 <= i < |subs|
        ensures i < pos + 1 ==> g[subs[i]].priority > g[sub].priority
        ensures i >= pos + 1 ==> g[subs[i]].priority <= g[sub].priority
      {
        assert i > 0 ==> subs[i] == subs[1..][i - 1];
      }
    }
  }

  /** What the list with the new region answers: those of higher priority first, then the new one, then the rest. */
  lemma NewerObscures(g: Graph, rank: Rank, subs: seq<RegionId>, sub: RegionId, list: seq<RegionId>, bound: nat,
                      base: int, readonly: bool, x: int)
    requires Ranked(g, rank) && PlacedRight(g, subs, sub, list)
    requires forall s | s in list :: s in g && rank[s] < bound
    requires forall s | s in subs && s in g && g[s].priority > g[sub].priority ::
      Resolve(g, rank, s, base, readonly, x).None?
    ensures sub in g
    ensures Resolve(g, rank, sub, base, readonly, x).Some? ==>
      ResolveFirst(g, rank, list, bound, base, readonly, x) == Resolve(g, rank, sub, base, readonly, x)
  {
    hide Resolve, Ranked;
    var pos :| PlacedAt(g, subs, sub, list, pos);
    SkipSilent(g, rank, list, pos, bound, base, readonly, x);
  }

  lemma {:induction false} SkipSilent(g: Graph, rank: Rank, list: seq<RegionId>, pos: nat, bound: nat, base: int,
                                      readonly: bool, x: int)
    requires Ranked(g, rank) && pos < |list| && forall s | s in list :: s in g && rank[s] < bound
    requires forall i | 0 <= i < pos :: Resolve(g, rank, list[i], base, readonly, x).None?
    ensures Resolve(g, rank, list[pos], base, readonly, x).Some? ==>
      ResolveFirst(g, rank, list, bound, base, readonly, x) == Resolve(g, rank, list[pos], base, readonly, x)
  {
    hide Resolve, Ranked;
    if pos > 0 {
      assert list[0] in list;
      SkipSilent(g, rank, list[1..], pos - 1, bound, base, readonly, x);
    }
  }

  /** Inserting at the chosen place keeps the order. */
  lemma {:induction false} InsertOrdered(g: Graph, subs: seq<RegionId>, s: RegionId)
    requires ListOrdered(g, subs) && s in g
    ensures ListOrdered(g, Inserted(subs, InsertPos(g, subs, g[s].priority), s))
  {
    hide ListOrdered, Inserted;
    var pos := InsertPos(g, subs, g[s].priority);
    OrderedIn(g, subs);
    if subs != [] {
      UnconsOrdered(g, subs);
    }
    if pos == 0 {
      InsertFront(subs, s);
      ConsOrdered(g, s, subs);
    } else {
      var w := Inserted(subs[1..], pos - 1, s);
      InsertOrdered(g, subs[1..], s);
      InsertCons(subs, pos, s);
      forall t | t in w
        ensures t in g && g[subs[0]].priority >= g[t].priority
      {
        InsertMember(subs[1..], pos - 1, s, t);
      }
      ConsOrdered(g, subs[0], w);
    }
  }

  lemma {:induction false} WithoutOrdered(g: Graph, subs: seq<RegionId>, s: RegionId)
    requires ListOrdered(g, subs)
    ensures ListOrdered(g, Without(subs, s))
  {
    if subs != [] {
      WithoutOrdered(g, subs[1..], s);
      var w := Without(subs[1..], s);
      forall i | 0 <= i < |w|
        ensures w[i] in subs[1..]
      {
        WithoutMember(subs[1..], s, w[i]);
      }
    }
  }

  lemma SamePriorities(g: Graph, g': Graph, subs: seq<RegionId>)
    requires ListOrdered(g, subs)
    requires forall s | s in subs :: s in g' && g'[s].priority == g[s].priority
    ensures ListOrdered(g', subs)
  {
  }

  lemma {:induction false} InsertDistinct(subs: seq<RegionId>, pos: nat, s: RegionId)
    requires NoRepeats(subs) && s !in subs && pos <= |subs|
    ensures NoRepeats(Inserted(subs, pos, s))
  {
    var w := Inserted(subs, pos, s);
    forall i, j | 0 <= i < j < |w|
      ensures w[i] != w[j]
    {
      assert i < pos ==> w[i] == subs[i];
      assert i > pos ==> w[i] == subs[i - 1];
      assert j < pos ==> w[j] == subs[j];
      assert j > pos ==> w[j] == subs[j - 1];
    }
  }

  lemma InsertMember(subs: seq<RegionId>, pos: nat, s: RegionId, t: RegionId)
    requires pos <= |subs|
    ensures t in Inserted(subs, pos, s) <==> t in subs || t == s
  {
    assert subs == subs[..pos] + subs[pos..];
  }

  /** Everything about a graph that the mutators keep. */
  ghost predicate GraphOk(g: Graph) {
    LinksOk(g) && Ordered(g)
  }

  lemma AddedRegionOk(g: Graph, mr: RegionId, offset: nat, sub: RegionId, m: RegionId)
    requires GraphOk(g) && mr in g && sub in g && mr != sub && g[sub].parent.None? && m in g
    ensures m in Added(g, mr, offset, sub) && LinkedOk(Added(g, mr, offset, sub), m)
    ensures ListOrdered(Added(g, mr, offset, sub), Added(g, mr, offset, sub)[m].subregions)
  {
    hide NoRepeats, ListOrdered, Inserted, InsertPos, Ordered, LinksOk;
    var g', subs := Added(g, mr, offset, sub), g[mr].subregions;
    var pos := InsertPos(g, subs, g[sub].priority);
    LinkedAt(g, mr);
    LinkedAt(g, m);
    UnlinkedElsewhere(g, mr, sub);
    UnlinkedElsewhere(g, m, sub);
    InsertDistinct(subs, pos, sub);
    InsertOrdered(g, subs, sub);
    forall s
      ensures s in Inserted(subs, pos, sub) <==> s in subs || s == sub
    {
      InsertMember(subs, pos, sub, s);
    }
    SamePriorities(g, g', g'[m].subregions);
  }

  lemma LinkedAt(g: Graph, m: RegionId)
    requires GraphOk(g) && m in g
    ensures LinkedOk(g, m) && ListOrdered(g, g[m].subregions) && LinksOk(g)
  {
  }

  lemma AddedOk(g: Graph, mr: RegionId, offset: nat, sub: RegionId)
    requires GraphOk(g) && mr in g && sub in g && mr != sub && g[sub].parent.None?
    ensures GraphOk(Added(g, mr, offset, sub))
  {
    hide ListOrdered, LinkedOk, Inserted, InsertPos;
    var g' := Added(g, mr, offset, sub);
    forall m | m in g'
      ensures LinkedOk(g', m) && ListOrdered(g', g'[m].subregions)
    {
      AddedRegionOk(g, mr, offset, sub, m);
    }
  }

  /** Linking puts the region before those it obscures and after those that obscure it. */
  lemma AddedPlaced(g: Graph, mr: RegionId, offset: nat, sub: RegionId)
    requires GraphOk(g) && mr in g && sub in g && mr != sub
    ensures PlacedRight(g, g[mr].subregions, sub, Added(g, mr, offset, sub)[mr].subregions)
  {
    hide ListOrdered, InsertPos, PlacedAt;
    InsertPosIs(g, g[mr].subregions, sub);
  }

  /** The graphs differ at most in region `sub` and in the list of region `mr`. */
  ghost predicate OnlyLinked(g: Graph, mr: RegionId, sub: RegionId, g': Graph) {
    && g'.Keys == g.Keys && mr in g && sub in g && mr != sub
    && (forall m | m in g && m != mr && m != sub :: g'[m] == g[m])
    && g'[mr] == g[mr].(subregions := g'[mr].subregions)
  }

  /** Linking changes the new region's parent, address and overlap attributes, its parent's list, and nothing else. */
  lemma LinkedOnly(g: Graph, mr: RegionId, offset: nat, sub: RegionId, mayOverlap: bool, priority: int)
    requires GraphOk(g) && mr in g && sub in g && mr != sub && g[sub].parent.None?
    ensures var h := g[sub := g[sub].(mayOverlap := mayOverlap, priority := priority)];
      var g' := Added(h, mr, offset, sub);
      && OnlyLinked(g, mr, sub, g') && PlacedRight(g', g[mr].subregions, sub, g'[mr].subregions)
      && g'[sub] == g[sub].(parent := Some(mr), addr := offset, mayOverlap := mayOverlap, priority := priority)
  {
    hide Inserted, InsertPos, GraphOk, PlacedRight;
    var r := g[sub].(mayOverlap := mayOverlap, priority := priority);
    var h := g[sub := r];
    var g' := Added(h, mr, offset, sub);
    FieldOk(g, sub, r);
    AddedPlaced(h, mr, offset, sub);
    SamePlace(h, g', g[mr].subregions, sub, g'[mr].subregions);
  }

  /** `list` is `subs` without the element at `pos`, which is `sub`. */
  ghost predicate DroppedAt(subs: seq<RegionId>, sub: RegionId, list: seq<RegionId>, pos: int) {
    0 <= pos < |subs| && subs[pos] == sub && list == subs[..pos] + subs[pos + 1..]
  }

  lemma {:induction false} WithoutDrops(subs: seq<RegionId>, sub: RegionId) returns (pos: nat)
    requires NoRepeats(subs) && sub in subs
    ensures DroppedAt(subs, sub, Without(subs, sub), pos)
  {
    if subs[0] == sub {
      pos := 0;
      WithoutNone(subs[1..], sub);
    } else {
      assert sub in subs[1..];
      var rest := WithoutDrops(subs[1..], sub);
      pos := rest + 1;
      assert subs[..pos] == [subs[0]] + subs[1..][..rest] && subs[pos + 1..] == subs[1..][rest + 1..];
    }
  }

  lemma {:induction false} WithoutNone(subs: seq<RegionId>, sub: RegionId)
    requires sub !in subs
    ensures Without(subs, sub) == subs
  {
    if subs != [] {
      WithoutNone(subs[1..], sub);
    }
  }

  lemma RemovedDrops(g: Graph, mr: RegionId, sub: RegionId)
    requires GraphOk(g) && mr in g && sub in g && mr != sub && g[sub].parent == Some(mr)
    ensures exists pos :: DroppedAt(g[mr].subregions, sub, Removed(g, mr, sub)[mr].subregions, pos)
  {
    hide NoRepeats, ListOrdered, DroppedAt;
    assert LinkedOk(g, mr) && LinkedOk(g, sub);
    var pos := WithoutDrops(g[mr].subregions, sub);
    assert Removed(g, mr, sub)[mr].subregions == Without(g[mr].subregions, sub);
    assert DroppedAt(g[mr].subregions, sub, Removed(g, mr, sub)[mr].subregions, pos);
  }

  lemma RemovedOk(g: Graph, mr: RegionId, sub: RegionId)
    requires GraphOk(g) && mr in g && sub in g && mr != sub && g[sub].parent == Some(mr)
    ensures GraphOk(Removed(g, mr, sub))
  {
    hide NoRepeats, ListOrdered;
    var g' := Removed(g, mr, sub);
    assert LinkedOk(g, mr);
    WithoutDistinct(g[mr].subregions, sub);
    WithoutOrdered(g, g[mr].subregions, sub);
    forall m | m in g'
      ensures LinkedOk(g', m) && ListOrdered(g', g'[m].subregions)
    {
      assert LinkedOk(g, m);
      forall s
        ensures s in g'[m].subregions <==> s in g[m].subregions && !(m == mr && s == sub)
      {
        WithoutMember(g[mr].subregions, sub, s);
      }
      WithoutMember(g[mr].subregions, sub, m);
      SamePriorities(g, g', g'[m].subregions);
    }
  }

  /** Attributes other than the links may change freely; the priority only while nothing lists the region. */
  lemma FieldOk(g: Graph, m: RegionId, r: Region)
    requires GraphOk(g) && m in g && r.parent == g[m].parent && r.subregions == g[m].subregions
    requires r.priority == g[m].priority || r.parent.None?
    ensures GraphOk(g[m := r])
  {
    hide NoRepeats, ListOrdered;
    var g' := g[m := r];
    forall n | n in g'
      ensures LinkedOk(g', n) && ListOrdered(g', g'[n].subregions)
    {
      assert LinkedOk(g, n);
      if r.parent.None? {
        UnlinkedElsewhere(g, n, m);
      }
      SamePriorities(g, g', g[n].subregions);
    }
  }

  /** Fewer links cannot close a cycle. */
  lemma RemovedRanked(g: Graph, rank: Rank, mr: RegionId, sub: RegionId)
    requires Ranked(g, rank) && mr in g && sub in g && mr != sub
    ensures Ranked(Removed(g, mr, sub), rank)
  {
    var g' := Removed(g, mr, sub);
    forall m | m in g'
      ensures AllBelow(g', rank, m)
    {
      assert AllBelow(g, rank, m);
      forall s | s in g'[m].subregions
        ensures s in g[m].subregions
      {
        WithoutMember(g[mr].subregions, sub, s);
      }
    }
  }

  lemma AddedRanked(g: Graph, rank: Rank, mr: RegionId, offset: nat, sub: RegionId)
    requires Ranked(g, rank) && mr in g && sub in g && rank[sub] < rank[mr]
    ensures Ranked(Added(g, mr, offset, sub), rank)
  {
    var g' := Added(g, mr, offset, sub);
    forall m | m in g'
      ensures AllBelow(g', rank, m)
    {
      assert AllBelow(g, rank, m);
      forall s | s in g'[m].subregions
        ensures s in g[m].subregions || (m == mr && s == sub)
      {
        InsertMember(g[mr].subregions, InsertPos(g, g[mr].subregions, g[sub].priority), sub, s);
      }
    }
  }

  lemma FieldRanked(g: Graph, rank: Rank, m: RegionId, r: Region)
    requires Ranked(g, rank) && m in g && r.alias == g[m].alias && r.subregions == g[m].subregions
    ensures Ranked(g[m := r], rank)
  {
    var g' := g[m := r];
    forall n | n in g'
      ensures AllBelow(g', rank, n)
    {
      assert AllBelow(g, rank, n);
    }
  }

  // The state of the memory core.

  datatype Space = Space(root: Option<RegionId>, view: seq<FlatRange>)

  ghost predicate RootsIn(g: Graph, spaces: seq<Space>) {
    forall i | 0 <= i < |spaces| && spaces[i].root.Some? :: spaces[i].root.value in g
  }

  /** Every registered map is what rendering the graph afresh would give. */
  ghost predicate Agree(g: Graph, spaces: seq<Space>)
    requires Acyclic(g) && RootsIn(g, spaces)
  {
    forall i | 0 <= i < |spaces| :: IsRendering(g, spaces[i].root, spaces[i].view)
  }

  /** No root that shows anything has moved. */
  ghost predicate RootsStay(g: Graph, g': Graph, spaces: seq<Space>) {
    forall i | 0 <= i < |spaces| && spaces[i].root.Some? ::
      var m := spaces[i].root.value; m in g && m in g' && (g[m].addr == g'[m].addr || !g[m].enabled)
  }

  lemma StillAgree(g: Graph, g': Graph, spaces: seq<Space>)
    requires Acyclic(g) && Acyclic(g') && RootsIn(g, spaces) && Agree(g, spaces)
    requires SameShape(g, g') && RootsStay(g, g', spaces)
    ensures RootsIn(g', spaces) && Agree(g', spaces)
  {
    hide Acyclic, SameShape, Visible, Lookup;
    forall i | 0 <= i < |spaces|
      ensures IsRendering(g', spaces[i].root, spaces[i].view)
    {
      assert IsRendering(g, spaces[i].root, spaces[i].view);
      forall x
        ensures Lookup(spaces[i].view, x) == Visible(g', spaces[i].root, x)
      {
        SameVisible(g, g', spaces[i].root, x);
      }
    }
  }

  ghost predicate SameRoots(a: seq<Space>, b: seq<Space>) {
    |a| == |b| && forall i | 0 <= i < |a| :: a[i].root == b[i].root
  }

  lemma AgreeSorted(g: Graph, spaces: seq<Space>)
    requires Acyclic(g) && RootsIn(g, spaces)
    requires forall i | 0 <= i < |spaces| :: IsRendering(g, spaces[i].root, spaces[i].view)
    ensures Agree(g, spaces) && forall i | 0 <= i < |spaces| :: Sorted(spaces[i].view)
  {
  }

  // Moving a root.

  /** What region `m` answers at offset `k` from its own start, wherever it is placed. */
  ghost function Within(g: Graph, m: RegionId, k: int): Option<Owner>
    requires Acyclic(g) && m in g
  {
    var rank :| Ranked(g, rank);
    Resolve(g, rank, m, 0 - g[m].addr, false, k)
  }

  lemma WithinByRank(g: Graph, rank: Rank, m: RegionId, k: int)
    requires Ranked(g, rank) && m in g
    ensures Acyclic(g) && Within(g, m, k) == Resolve(g, rank, m, 0 - g[m].addr, false, k)
    ensures Within(g, m, k).Some? ==> k >= 0
  {
    hide ResolveFirst;
    var r :| Ranked(g, r) && Within(g, m, k) == Resolve(g, r, m, 0 - g[m].addr, false, k);
    ResolveIgnoresRank(g, r, rank, m, 0 - g[m].addr, false, k);
  }

  /** Nothing of region `m` can be seen when it is the root of a space and starts at `addr`. */
  ghost predicate Unseen(g: Graph, m: RegionId, addr: nat)
    requires Acyclic(g) && m in g
  {
    forall k | 0 <= k < ADDRESS_SPACE_SIZE - addr :: Within(g, m, k).None?
  }

  /** A move of `m` to `addr` changes nothing that `m` shows as a root. */
  ghost predicate StaysPut(g: Graph, m: RegionId, addr: nat)
    requires Acyclic(g) && m in g
  {
    addr == g[m].addr || Unseen(g, m, Min(addr, g[m].addr))
  }

  lemma VisibleWithin(g: Graph, m: RegionId, x: int)
    requires Acyclic(g) && m in g
    ensures Visible(g, Some(m), x) == if 0 <= x < ADDRESS_SPACE_SIZE then Within(g, m, x - g[m].addr) else None
    ensures Within(g, m, x).Some? ==> x >= 0
  {
    hide Ranked, Resolve;
    var rank :| Ranked(g, rank);
    WithinByRank(g, rank, m, x);
    if 0 <= x < ADDRESS_SPACE_SIZE {
      VisibleByRank(g, rank, m, x);
      WithinByRank(g, rank, m, x - g[m].addr);
      ResolveShift(g, rank, m, 0 - g[m].addr, false, x - g[m].addr, g[m].addr);
    }
  }

  lemma SameWithin(g: Graph, g': Graph, m: RegionId, k: int)
    requires Acyclic(g) && Acyclic(g') && SameShape(g, g') && m in g && m in g'
    ensures Within(g, m, k) == Within(g', m, k)
  {
    hide Ranked, SameShape, Resolve;
    var r :| Ranked(g, r);
    var r' :| Ranked(g', r');
    WithinByRank(g, r, m, k);
    WithinByRank(g', r', m, k);
    SameResolve(g, g', r, r', m, 0, false, k);
  }

  lemma {:induction false} LowestWithin(g: Graph, m: RegionId, k: nat) returns (low: nat)
    requires Acyclic(g) && m in g && Within(g, m, k).Some?
    ensures low <= k && Within(g, m, low).Some? && forall j | 0 <= j < low :: Within(g, m, j).None?
  {
    if j: nat :| j < k && Within(g, m, j).Some? {
      low := LowestWithin(g, m, j);
    } else {
      low := k;
    }
  }

  /** A place where a moved root shows something else. */
  lemma MovedDiffers(g: Graph, g': Graph, m: RegionId) returns (x: int)
    requires Acyclic(g) && Acyclic(g') && SameShape(g, g') && m in g && m in g'
    requires !StaysPut(g, m, g'[m].addr)
    ensures Visible(g, Some(m), x) != Visible(g', Some(m), x)
  {
    hide SameShape, Acyclic, Within, Visible;
    var lower := Min(g[m].addr, g'[m].addr);
    var k :| 0 <= k < ADDRESS_SPACE_SIZE - lower && Within(g, m, k).Some?;
    var low := LowestWithin(g, m, k);
    x := lower + low;
    VisibleWithin(g, m, x);
    VisibleWithin(g', m, x);
    SameWithin(g, g', m, x - g[m].addr);
    SameWithin(g, g', m, x - g'[m].addr);
    VisibleWithin(g, m, x - g[m].addr);
    VisibleWithin(g, m, x - g'[m].addr);
  }

  /** Exactly when a moved root goes unnoticed, told before it moves. */
  lemma RootMoveShows(g: Graph, g': Graph, m: RegionId)
    requires Acyclic(g) && Acyclic(g') && SameShape(g, g') && m in g && m in g'
    ensures (forall x :: Visible(g, Some(m), x) == Visible(g', Some(m), x)) <==> StaysPut(g, m, g'[m].addr)
  {
    hide SameShape, Acyclic, Within, Visible;
    if StaysPut(g, m, g'[m].addr) {
      forall x
        ensures Visible(g, Some(m), x) == Visible(g', Some(m), x)
      {
        VisibleWithin(g, m, x);
        VisibleWithin(g', m, x);
        SameWithin(g, g', m, x - g'[m].addr);
        VisibleWithin(g, m, x - g[m].addr);
        VisibleWithin(g, m, x - g'[m].addr);
      }
    } else {
      var x := MovedDiffers(g, g', m);
    }
  }

  /** Region `m` is the root of no space, or a move to `addr` changes nothing that it shows. */
  ghost predicate MoveHidden(g: Graph, spaces: seq<Space>, m: RegionId, addr: nat)
    requires Acyclic(g) && m in g
  {
    (exists i :: 0 <= i < |spaces| && spaces[i].root == Some(m)) ==> StaysPut(g, m, addr)
  }

  lemma RenderingMoves(g: Graph, g': Graph, root: Option<RegionId>, view: seq<FlatRange>)
    requires Acyclic(g) && Acyclic(g') && (root.Some? ==> root.value in g && root.value in g')
    requires IsRendering(g, root, view)
    ensures IsRendering(g', root, view) <==> forall x :: Visible(g, root, x) == Visible(g', root, x)
  {
    hide Acyclic, Visible, Lookup;
    if IsRendering(g', root, view) {
      forall x
        ensures Visible(g, root, x) == Visible(g', root, x)
      {
        assert Lookup(view, x) == Visible(g, root, x);
      }
    }
  }

  /** After a move that asked for no update, the maps are up to date exactly when the move was hidden. */
  lemma MoveAgrees(g: Graph, g': Graph, spaces: seq<Space>, m: RegionId)
    requires Acyclic(g) && Acyclic(g') && SameShape(g, g') && m in g && m in g'
    requires RootsIn(g, spaces) && RootsIn(g', spaces) && Agree(g, spaces)
    requires forall n | n in g && n in g' && n != m :: g[n].addr == g'[n].addr
    ensures Agree(g', spaces) <==> MoveHidden(g, spaces, m, g'[m].addr)
  {
    hide Acyclic, SameShape, Visible, IsRendering, StaysPut;
    RootMoveShows(g, g', m);
    forall i | 0 <= i < |spaces|
      ensures IsRendering(g', spaces[i].root, spaces[i].view) <==>
              spaces[i].root != Some(m) || StaysPut(g, m, g'[m].addr)
    {
      var root := spaces[i].root;
      RenderingMoves(g, g', root, spaces[i].view);
      if root != Some(m) {
        forall x
          ensures Visible(g, root, x) == Visible(g', root, x)
        {
          SameVisible(g, g', root, x);
        }
      }
    }
  }

  /** Where nothing else moved either, a move is hidden in both graphs or in neither. */
  lemma HiddenAlike(g: Graph, g': Graph, spaces: seq<Space>, m: RegionId, addr: nat)
    requires Acyclic(g) && Acyclic(g') && SameShape(g, g') && m in g && m in g' && g[m].addr == g'[m].addr
    ensures MoveHidden(g, spaces, m, addr) <==> MoveHidden(g', spaces, m, addr)
  {
    hide Acyclic, SameShape, Within;
    forall k
      ensures Within(g, m, k) == Within(g', m, k)
    {
      SameWithin(g, g', m, k);
    }
  }

  lemma GraphBasics(g: Graph, m: RegionId)
    requires GraphOk(g) && Acyclic(g) && m in g && g[m].parent.Some?
    ensures g[m].parent.value in g && g[m].parent.value != m
  {
    var rank :| Ranked(g, rank);
    assert LinkedOk(g, m);
    assert AllBelow(g, rank, g[m].parent.value);
  }

  lemma RemovedAcyclic(g: Graph, mr: RegionId, sub: RegionId)
    requires Acyclic(g) && mr in g && sub in g && mr != sub
    ensures Acyclic(Removed(g, mr, sub))
  {
    var rank :| Ranked(g, rank);
    RemovedRanked(g, rank, mr, sub);
  }

  lemma FieldAcyclic(g: Graph, m: RegionId, r: Region)
    requires Acyclic(g) && m in g && r.alias == g[m].alias && r.subregions == g[m].subregions
    ensures Acyclic(g[m := r])
  {
    var rank :| Ranked(g, rank);
    FieldRanked(g, rank, m, r);
  }

  /** The graph after memory_region_set_address of a region with a parent. */
  function Moved(g: Graph, mr: RegionId, addr: nat): Graph
    requires mr in g && g[mr].parent.Some? && g[mr].parent.value in g && g[mr].parent.value != mr
  {
    var p := g[mr].parent.value;
    Added(Removed(g, p, mr)[mr := Relinked(g, mr)], p, addr, mr)
  }

  /** Taking a region out and linking it to the same parent again closes no cycle. */
  lemma MovedAcyclic(g: Graph, mr: RegionId, r: Region, addr: nat)
    requires Acyclic(g) && GraphOk(g) && mr in g && g[mr].parent.Some?
    requires r.alias == g[mr].alias && r.subregions == g[mr].subregions
    ensures g[mr].parent.value in g && g[mr].parent.value != mr
    ensures Acyclic(Added(Removed(g, g[mr].parent.value, mr)[mr := r], g[mr].parent.value, addr, mr))
  {
    hide Ranked;
    GraphBasics(g, mr);
    var p := g[mr].parent.value;
    var rank :| Ranked(g, rank);
    RankedAt(g, rank, p);
    assert LinkedOk(g, mr);
    RemovedRanked(g, rank, p, mr);
    FieldRanked(Removed(g, p, mr), rank, mr, r);
    RankedAt(g, rank, mr);
    AddedRanked(Removed(g, p, mr)[mr := r], rank, p, addr, mr);
  }

  function Relinked(g: Graph, mr: RegionId): Region
    requires mr in g
  {
    g[mr].(parent := None, priority := if g[mr].mayOverlap then g[mr].priority else 0)
  }

  /** Moving a linked region changes its address, its place in its parent's list, and nothing else. */
  lemma MovedOnly(g: Graph, mr: RegionId, addr: nat)
    requires mr in g && g[mr].parent.Some? && g[mr].parent.value in g && g[mr].parent.value != mr
    ensures OnlyLinked(g, g[mr].parent.value, mr, Moved(g, mr, addr))
    ensures Moved(g, mr, addr)[mr] ==
            g[mr].(addr := addr, priority := if g[mr].mayOverlap then g[mr].priority else 0)
  {
    hide Inserted, InsertPos, Without;
  }

  lemma RelinkedIs(g: Graph, p: RegionId, mr: RegionId)
    requires mr in g && p in g && p != mr
    ensures var h := Removed(g, p, mr);
      && p in h && mr in h && h.Keys == g.Keys
      && h[mr] == g[mr].(parent := None) && h[p].enabled == g[p].enabled
      && Relinked(g, mr) == h[mr].(priority := if g[mr].mayOverlap then g[mr].priority else 0)
  {
  }

  /** Setting or clearing one client's bit leaves the other clients' bits alone. */
  lemma MaskOnlyClient(m: bv8, log: bool, client: nat)
    requires client < 8
    ensures var mask := (1 as bv8) << client;
      && MaskAfter(m, log, client) & !mask == m & !mask
      && MaskAfter(m, log, client) & mask == if log then mask else 0
  {
  }

  function MaskAfter(m: bv8, log: bool, client: nat): bv8
    requires client < 8
  {
    var mask := (1 as bv8) << client;
    (m & !mask) | (if log then mask else 0)
  }

  /** What the listeners were told took every view from `before` to `after`; without news nothing changed. */
  ghost predicate Heard(before: seq<Space>, after: seq<Space>, told: seq<seq<Event>>) {
    && SameRoots(after, before)
    && if told == [] then after == before
       else |told| == |after| && forall i | 0 <= i < |after| ::
         told[i] == Deletions(before[i].view, after[i].view) + Additions(before[i].view, after[i].view)
  }

  /** set_address asks for an update: the region moves, is linked, and both it and its parent are enabled. */
  predicate MoveAsks(g: Graph, mr: RegionId, addr: nat)
    requires mr in g
  {
    && addr != g[mr].addr && g[mr].enabled
    && g[mr].parent.Some? && g[mr].parent.value in g && g[g[mr].parent.value].enabled
  }

  /** Unlinking a region that is not seen through its parent does not decide whether its move is hidden. */
  lemma RemovedHidden(g: Graph, p: RegionId, mr: RegionId, spaces: seq<Space>, addr: nat)
    requires Acyclic(g) && p in g && mr in g && p != mr
    ensures var h := Removed(g, p, mr);
      && Acyclic(h) && mr in h
      && (!(g[p].enabled && g[mr].enabled) ==>
           (MoveHidden(g, spaces, mr, addr) <==> MoveHidden(h, spaces, mr, addr)))
  {
    hide Acyclic, MoveHidden, SameShape;
    RemovedAcyclic(g, p, mr);
    if !(g[p].enabled && g[mr].enabled) {
      RemoveShape(g, p, mr);
      HiddenAlike(g, Removed(g, p, mr), spaces, mr, addr);
    }
  }

  class MemoryCore {
    var regions: Graph
    var spaces: seq<Space>
    var depth: nat
    var pending: bool

    /** The links are well formed, and between transactions no update is pending. */
    ghost predicate Sound()
      reads this
    {
      && Acyclic(regions) && GraphOk(regions) && RootsIn(regions, spaces)
      && (forall i | 0 <= i < |spaces| :: Sorted(spaces[i].view))
      && (depth == 0 ==> !pending)
    }

    /** An update is pending, or every map is what rendering afresh would give. */
    ghost predicate UpToDate()
      requires Acyclic(regions) && RootsIn(regions, spaces)
      reads this
    {
      pending || Agree(regions, spaces)
    }

    ghost predicate Valid()
      reads this
    {
      Sound() && UpToDate()
    }

    /** What a mutator that asks for an update, or does not, does beside changing the graph: inside a
        transaction it notes what is asked, outside it brings the maps up to date at once. */
    twostate predicate Stepped(asked: bool, told: seq<seq<Event>>)
      reads this
    {
      && Acyclic(regions) && RootsIn(regions, spaces)
      && depth == old(depth) && Heard(old(spaces), spaces, told)
      && (if depth > 0 then told == [] && pending == (old(pending) || asked)
          else !pending && if asked then Agree(regions, spaces) else told == [])
    }

    /** The regions and spaces as registered, with maps that agree with them. */
    constructor (regions: Graph, spaces: seq<Space>)
      requires Acyclic(regions) && GraphOk(regions) && RootsIn(regions, spaces) && Agree(regions, spaces)
      ensures Valid() && this.regions == regions && this.spaces == spaces && depth == 0
    {
      this.regions := regions;
      this.spaces := spaces;
      depth := 0;
      pending := false;
    }

    method TransactionBegin()
      requires Sound()
      modifies this`depth
      ensures Sound() && depth == old(depth) + 1 && (UpToDate() <==> old(UpToDate()))
    {
      depth := depth + 1;
    }

    /** address_space_update_topology for one space, with the events its listeners see. */
    method UpdateTopology(i: nat) returns (events: seq<Event>)
      requires Acyclic(regions) && RootsIn(regions, spaces) && i < |spaces| && Sorted(spaces[i].view)
      modifies this`spaces
      ensures |spaces| == |old(spaces)| && spaces == old(spaces)[i := old(spaces)[i].(view := spaces[i].view)]
      ensures IsRendering(regions, spaces[i].root, spaces[i].view)
      ensures events == Deletions(old(spaces)[i].view, spaces[i].view) + Additions(old(spaces)[i].view, spaces[i].view)
    {
      ghost var rank :| Ranked(regions, rank);
      var oldView := spaces[i].view;
      var newView := GenerateTopology(regions, rank, spaces[i].root);
      var dels := UpdateTopologyPass(oldView, newView, false);
      var adds := UpdateTopologyPass(oldView, newView, true);
      spaces := spaces[i := spaces[i].(view := newView)];
      events := dels + adds;
    }

    /** memory_region_transaction_commit: closing the outermost transaction brings every map up to date,
        whatever was missed before, when an update is pending. */
    method TransactionCommit() returns (told: seq<seq<Event>>)
      requires Sound() && depth > 0
      modifies this
      ensures Sound() && depth == old(depth) - 1 && regions == old(regions) && (UpToDate() <==> old(UpToDate()))
      ensures Heard(old(spaces), spaces, told)
      ensures if depth == 0 && old(pending) then |told| == |spaces| else told == [] && pending == old(pending)
    {
      told := [];
      depth := depth - 1;
      if depth == 0 && pending {
        hide Acyclic, GraphOk, IsRendering, Deletions, Additions;
        pending := false;
        var i := 0;
        while i < |spaces|
          invariant i <= |spaces| == |old(spaces)| && depth == 0 && !pending && regions == old(regions) && |told| == i
          invariant SameRoots(spaces, old(spaces))
          invariant forall k | i <= k < |spaces| :: spaces[k] == old(spaces)[k]
          invariant forall k | 0 <= k < i ::
            && IsRendering(regions, spaces[k].root, spaces[k].view)
            && (var before, after := old(spaces)[k].view, spaces[k].view;
                told[k] == Deletions(before, after) + Additions(before, after))
        {
          var events := UpdateTopology(i);
          told := told + [events];
          i := i + 1;
        }
        AgreeSorted(regions, spaces);
      }
    }

    /** What every mutator does: inside a transaction, change the graph and ask for an update or not. */
    method Change(g: Graph, update: bool) returns (told: seq<seq<Event>>)
      requires Sound() && Acyclic(g) && GraphOk(g) && RootsIn(g, spaces)
      modifies this
      ensures Sound() && regions == g && Stepped(update, told)
      ensures UpToDate() <==> old(pending) || update || Agree(g, old(spaces))
    {
      hide GraphOk, IsRendering, Acyclic, Agree;
      TransactionBegin();
      regions := g;
      pending := pending || update;
      told := TransactionCommit();
    }

    /** A field write outside any transaction. */
    method Write(g: Graph) returns (told: seq<seq<Event>>)
      requires Sound() && Acyclic(g) && GraphOk(g) && RootsIn(g, spaces)
      modifies this`regions
      ensures Sound() && regions == g && Stepped(false, told)
      ensures UpToDate() <==> pending || Agree(g, spaces)
    {
      regions := g;
      told := [];
    }

    method SetEnabled(mr: RegionId, enabled: bool) returns (told: seq<seq<Event>>)
      requires Sound() && mr in regions
      modifies this
      ensures Sound() && (old(UpToDate()) ==> UpToDate())
      ensures regions == old(regions)[mr := old(regions)[mr].(enabled := enabled)]
      ensures Stepped(enabled != old(regions)[mr].enabled, told)
    {
      hide GraphOk, Acyclic, Agree;
      var r := regions[mr].(enabled := enabled);
      if enabled == regions[mr].enabled {
        assert regions == regions[mr := r];
        return [];
      }
      FieldAcyclic(regions, mr, r);
      FieldOk(regions, mr, r);
      told := Change(regions[mr := r], true);
    }

    /** The attribute setters that only an enabled region makes visible. */
    method SetAttribute(mr: RegionId, r: Region) returns (told: seq<seq<Event>>)
      requires Sound() && mr in regions
      requires r == regions[mr].(readonly := r.readonly, readable := r.readable, dirtyLogMask := r.dirtyLogMask,
                                 aliasOffset := r.aliasOffset)
      modifies this
      ensures Sound() && (old(UpToDate()) ==> UpToDate())
      ensures regions == old(regions)[mr := r] && Stepped(old(regions)[mr].enabled, told)
    {
      hide GraphOk, Acyclic, Agree, SameShape;
      FieldAcyclic(regions, mr, r);
      FieldOk(regions, mr, r);
      if !regions[mr].enabled && UpToDate() && !pending {
        FieldShape(regions, mr, r);
        StillAgree(regions, regions[mr := r], spaces);
      }
      told := Change(regions[mr := r], regions[mr].enabled);
    }

    method SetLog(mr: RegionId, log: bool, client: nat) returns (told: seq<seq<Event>>)
      requires Sound() && mr in regions && client < 8
      modifies this
      ensures Sound() && (old(UpToDate()) ==> UpToDate())
      ensures var r := old(regions)[mr];
        regions == old(regions)[mr := r.(dirtyLogMask := MaskAfter(r.dirtyLogMask, log, client))]
      ensures Stepped(old(regions)[mr].enabled, told)
    {
      hide MaskAfter, GraphOk, Acyclic, Agree;
      told := SetAttribute(mr, regions[mr].(dirtyLogMask := MaskAfter(regions[mr].dirtyLogMask, log, client)));
    }

    method SetReadonly(mr: RegionId, readonly: bool) returns (told: seq<seq<Event>>)
      requires Sound() && mr in regions
      modifies this
      ensures Sound() && (old(UpToDate()) ==> UpToDate())
      ensures regions == old(regions)[mr := old(regions)[mr].(readonly := readonly)]
      ensures Stepped(readonly != old(regions)[mr].readonly && old(regions)[mr].enabled, told)
    {
      hide GraphOk, Acyclic, Agree, RootsIn;
      told := [];
      if regions[mr].readonly != readonly {
        told := SetAttribute(mr, regions[mr].(readonly := readonly));
      } else {
        assert regions == regions[mr := regions[mr].(readonly := readonly)];
      }
    }

    method SetReadable(mr: RegionId, readable: bool) returns (told: seq<seq<Event>>)
      requires Sound() && mr in regions
      modifies this
      ensures Sound() && (old(UpToDate()) ==> UpToDate())
      ensures regions == old(regions)[mr := old(regions)[mr].(readable := readable)]
      ensures Stepped(readable != old(regions)[mr].readable && old(regions)[mr].enabled, told)
    {
      hide GraphOk, Acyclic, Agree, RootsIn;
      told := [];
      if regions[mr].readable != readable {
        told := SetAttribute(mr, regions[mr].(readable := readable));
      } else {
        assert regions == regions[mr := regions[mr].(readable := readable)];
      }
    }

    method SetAliasOffset(mr: RegionId, offset: nat) returns (told: seq<seq<Event>>)
      requires Sound() && mr in regions && regions[mr].alias.Some?
      modifies this
      ensures Sound() && (old(UpToDate()) ==> UpToDate())
      ensures regions == old(regions)[mr := old(regions)[mr].(aliasOffset := offset)]
      ensures Stepped(offset != old(regions)[mr].aliasOffset && old(regions)[mr].enabled, told)
    {
      hide GraphOk, Acyclic, Agree, RootsIn;
      told := [];
      if offset == regions[mr].aliasOffset {
        assert regions == regions[mr := regions[mr].(aliasOffset := offset)];
        return;
      }
      told := SetAttribute(mr, regions[mr].(aliasOffset := offset));
    }

    /** Linking asks for an update when both regions are enabled.  The link also moves `sub`, and where no
        update is asked for the maps stay right exactly when that move is hidden. */
    method AddSubregionCommon(mr: RegionId, offset: nat, sub: RegionId) returns (told: seq<seq<Event>>)
      requires Sound() && mr in regions && sub in regions && mr != sub && regions[sub].parent.None?
      requires Acyclic(Added(regions, mr, offset, sub))
      modifies this
      ensures Sound() && regions == Added(old(regions), mr, offset, sub)
      ensures PlacedRight(old(regions), old(regions)[mr].subregions, sub, regions[mr].subregions)
      ensures OnlyLinked(old(regions), mr, sub, regions)
      ensures regions[sub] == old(regions)[sub].(parent := Some(mr), addr := offset)
      ensures Stepped(old(regions)[mr].enabled && old(regions)[sub].enabled, told)
      ensures old(UpToDate()) ==>
        (UpToDate() <==> || old(pending) || (old(regions)[mr].enabled && old(regions)[sub].enabled)
                         || MoveHidden(old(regions), old(spaces), sub, offset))
    {
      hide LinksOk, Ordered, Acyclic, Agree, SameShape, MoveHidden, PlacedRight;
      AddedOk(regions, mr, offset, sub);
      AddedPlaced(regions, mr, offset, sub);
      if !(regions[mr].enabled && regions[sub].enabled) && UpToDate() && !pending {
        AddShape(regions, mr, offset, sub);
        MoveAgrees(regions, Added(regions, mr, offset, sub), spaces, sub);
      }
      told := Change(Added(regions, mr, offset, sub), regions[mr].enabled && regions[sub].enabled);
    }

    /** The overlap attributes of a region that nothing lists show nowhere. */
    method SetOverlap(sub: RegionId, mayOverlap: bool, priority: int, ghost offset: nat)
      requires Sound() && sub in regions && regions[sub].parent.None?
      modifies this`regions
      ensures Sound() && (UpToDate() <==> old(UpToDate()))
      ensures regions == old(regions)[sub := old(regions)[sub].(mayOverlap := mayOverlap, priority := priority)]
      ensures MoveHidden(regions, spaces, sub, offset) <==> MoveHidden(old(regions), spaces, sub, offset)
    {
      hide GraphOk, Acyclic, Agree, SameShape, MoveHidden;
      var r := regions[sub].(mayOverlap := mayOverlap, priority := priority);
      var g := regions[sub := r];
      FieldAcyclic(regions, sub, r);
      FieldOk(regions, sub, r);
      FieldShape(regions, sub, r);
      FieldShape(g, sub, regions[sub]);
      assert g[sub := regions[sub]] == regions;
      HiddenAlike(regions, g, spaces, sub, offset);
      if Agree(regions, spaces) {
        StillAgree(regions, g, spaces);
      }
      if Agree(g, spaces) {
        StillAgree(g, regions, spaces);
      }
      var _ := Write(g);
    }

    /** add_subregion and add_subregion_overlap: fix the overlap attributes, then link. */
    method AddSubregion(mr: RegionId, offset: nat, sub: RegionId, mayOverlap: bool, priority: int)
      returns (told: seq<seq<Event>>)
      requires Sound() && mr in regions && sub in regions && mr != sub && regions[sub].parent.None?
      requires mayOverlap || priority == 0
      requires var r := regions[sub].(mayOverlap := mayOverlap, priority := priority);
        Acyclic(Added(regions[sub := r], mr, offset, sub))
      modifies this
      ensures Sound() && regions ==
        Added(old(regions)[sub := old(regions)[sub].(mayOverlap := mayOverlap, priority := priority)], mr, offset, sub)
      ensures OnlyLinked(old(regions), mr, sub, regions) && regions[sub] ==
        old(regions)[sub].(parent := Some(mr), addr := offset, mayOverlap := mayOverlap, priority := priority)
      ensures PlacedRight(regions, old(regions)[mr].subregions, sub, regions[mr].subregions)
      ensures Stepped(old(regions)[mr].enabled && old(regions)[sub].enabled, told)
      ensures old(UpToDate()) ==>
        (UpToDate() <==> || old(pending) || (old(regions)[mr].enabled && old(regions)[sub].enabled)
                         || MoveHidden(old(regions), old(spaces), sub, offset))
    {
      hide GraphOk, Acyclic, Agree, MoveHidden, PlacedRight, OnlyLinked, Added, RootsIn, Heard;
      LinkedOnly(regions, mr, offset, sub, mayOverlap, priority);
      SetOverlap(sub, mayOverlap, priority, offset);
      told := AddSubregionCommon(mr, offset, sub);
    }

    method DelSubregion(mr: RegionId, sub: RegionId) returns (told: seq<seq<Event>>)
      requires Sound() && mr in regions && sub in regions && regions[sub].parent == Some(mr)
      modifies this
      ensures Sound() && (old(UpToDate()) ==> UpToDate()) && regions == Removed(old(regions), mr, sub)
      ensures mr != sub && OnlyLinked(old(regions), mr, sub, regions)
      ensures regions[sub] == old(regions)[sub].(parent := None)
      ensures exists pos :: DroppedAt(old(regions)[mr].subregions, sub, regions[mr].subregions, pos)
      ensures Stepped(old(regions)[mr].enabled && old(regions)[sub].enabled, told)
    {
      hide LinksOk, Ordered, Acyclic, Agree, SameShape;
      GraphBasics(regions, sub);
      RemovedDrops(regions, mr, sub);
      RemovedAcyclic(regions, mr, sub);
      RemovedOk(regions, mr, sub);
      if !(regions[mr].enabled && regions[sub].enabled) && UpToDate() && !pending {
        RemoveShape(regions, mr, sub);
        StillAgree(regions, Removed(regions, mr, sub), spaces);
      }
      told := Change(Removed(regions, mr, sub), regions[mr].enabled && regions[sub].enabled);
    }

    /** memory_region_set_address: a region with a parent is unlinked and linked again, and that asks for an
        update when both are enabled.  Where none is asked for, the move must be hidden. */
    method SetAddress(mr: RegionId, addr: nat) returns (told: seq<seq<Event>>)
      requires Sound() && mr in regions
      modifies this
      ensures Sound() && Stepped(MoveAsks(old(regions), mr, addr), told)
      ensures addr == old(regions)[mr].addr ==> regions == old(regions)
      ensures addr != old(regions)[mr].addr && old(regions)[mr].parent.None? ==>
        regions == old(regions)[mr := old(regions)[mr].(addr := addr)]
      ensures addr != old(regions)[mr].addr && old(regions)[mr].parent.Some? ==>
        && old(regions)[mr].parent.value in old(regions) && old(regions)[mr].parent.value != mr
        && regions == Moved(old(regions), mr, addr)
        && OnlyLinked(old(regions), old(regions)[mr].parent.value, mr, regions)
      ensures mr in regions && regions[mr].addr == addr
      ensures var r := old(regions)[mr];
        regions[mr] == r.(addr := addr, priority := regions[mr].priority) &&
        (r.mayOverlap || r.parent.None? || addr == r.addr ==> regions[mr].priority == r.priority)
      ensures old(UpToDate()) ==>
        (UpToDate() <==> || old(pending) || MoveAsks(old(regions), mr, addr)
                         || MoveHidden(old(regions), old(spaces), mr, addr))
    {
      hide Ordered, LinkedOk, Acyclic, Agree, SameShape, Added, Removed, Unseen;
      var r := regions[mr].(addr := addr);
      told := [];
      if addr == regions[mr].addr {
        assert regions == regions[mr := r];
        return;
      }
      if regions[mr].parent.None? {
        FieldAcyclic(regions, mr, r);
        FieldOk(regions, mr, r);
        if UpToDate() && !pending {
          AddrShape(regions, mr, addr);
          MoveAgrees(regions, regions[mr := r], spaces, mr);
        }
        told := Write(regions[mr := r]);
        return;
      }
      told := Relink(mr, addr);
    }

    /** The part of set_address for a region with a parent: one transaction around two. */
    method Relink(mr: RegionId, addr: nat) returns (told: seq<seq<Event>>)
      requires Sound() && mr in regions && regions[mr].parent.Some? && addr != regions[mr].addr
      modifies this
      ensures Sound() && Stepped(MoveAsks(old(regions), mr, addr), told)
      ensures old(regions)[mr].parent.value in old(regions) && old(regions)[mr].parent.value != mr
      ensures regions == Moved(old(regions), mr, addr)
      ensures OnlyLinked(old(regions), old(regions)[mr].parent.value, mr, regions)
      ensures var r := old(regions)[mr];
        regions[mr] == r.(addr := addr, priority := if r.mayOverlap then r.priority else 0)
      ensures old(UpToDate()) ==>
        (UpToDate() <==> || old(pending) || MoveAsks(old(regions), mr, addr)
                         || MoveHidden(old(regions), old(spaces), mr, addr))
    {
      hide Ordered, LinksOk, Acyclic, Agree, SameShape, Added, Removed, MoveHidden, OnlyLinked, PlacedRight, DroppedAt;
      var parent := regions[mr].parent.value;
      var priority := regions[mr].priority;
      var mayOverlap := regions[mr].mayOverlap;
      GraphBasics(regions, mr);
      MovedAcyclic(regions, mr, Relinked(regions, mr), addr);
      RelinkedIs(regions, parent, mr);
      MovedOnly(regions, mr, addr);
      RemovedHidden(regions, parent, mr, spaces, addr);
      TransactionBegin();
      var _ := DelSubregion(parent, mr);
      var _ := AddSubregion(parent, addr, mr, mayOverlap, if mayOverlap then priority else 0);
      told := TransactionCommit();
    }
  }

  const PLAIN := Region(0, 4, true, true, false, true, false, 0, None, 0, [], None, 0, false)

  /** Two unlinked regions: a root that shows something, and a disabled container. */
  const ROOT_AND_CONTAINER: Graph := map[0 := PLAIN, 1 := PLAIN.(size := 64, enabled := false, terminates := false)]

  lemma ContainerLinksOk()
    ensures GraphOk(ROOT_AND_CONTAINER)
  {
    var g := ROOT_AND_CONTAINER;
    assert forall m | m in g :: LinkedOk(g, m);
  }

  lemma RootAndContainerOk(rank: Rank)
    requires rank == map[0 := 0, 1 := 1]
    ensures var g := ROOT_AND_CONTAINER; GraphOk(g) && Ranked(g, rank) && Ranked(Added(g, 1, 8, 0), rank)
  {
    hide GraphOk, Added;
    var g := ROOT_AND_CONTAINER;
    ContainerLinksOk();
    assert forall m | m in g :: AllBelow(g, rank, m);
    AddedRanked(g, rank, 1, 8, 0);
  }

  /** The flag can be too weak after all: linking the root of an address space below a disabled region asks
      for no update, and yet moves what that address space shows. */
  lemma MissedRootMove()
    ensures var g := ROOT_AND_CONTAINER; var g' := Added(g, 1, 8, 0);
      && !(g[0].enabled && g[1].enabled)
      && Acyclic(g) && GraphOk(g) && Acyclic(g')
      && Visible(g, Some(0), 0) != Visible(g', Some(0), 0)
  {
    var g := ROOT_AND_CONTAINER;
    var g' := Added(g, 1, 8, 0);
    var rank: Rank := map[0 := 0, 1 := 1];
    assert g'[1].subregions == [0];
    hide Ordered, LinksOk, Visible;
    RootAndContainerOk(rank);
    VisibleByRank(g, rank, 0, 0);
    VisibleByRank(g', rank, 0, 0);
    assert Resolve(g, rank, 0, 0, false, 0).Some?;
  }

  /** So does setting the address of a root that has no parent. */
  lemma MissedAddressMove()
    ensures var g := ROOT_AND_CONTAINER; var g' := g[0 := g[0].(addr := 8)];
      && !MoveAsks(g, 0, 8)
      && Acyclic(g) && GraphOk(g) && Acyclic(g') && GraphOk(g')
      && Visible(g, Some(0), 0) != Visible(g', Some(0), 0)
  {
    var g := ROOT_AND_CONTAINER;
    var r := g[0].(addr := 8);
    var g' := g[0 := r];
    var rank: Rank := map[0 := 0, 1 := 1];
    hide Ordered, LinksOk, Visible;
    RootAndContainerOk(rank);
    FieldRanked(g, rank, 0, r);
    FieldOk(g, 0, r);
    VisibleByRank(g, rank, 0, 0);
    VisibleByRank(g', rank, 0, 0);
    assert Resolve(g, rank, 0, 0, false, 0).Some?;
  }
}
