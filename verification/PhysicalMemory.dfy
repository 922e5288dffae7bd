/** From the region graph to the byte: the whole pipeline behind one commit (memory.c and exec.c). */
module PhysicalMemory {
  import opened Prelude
  import opened RegionGraph
  import opened FlatViews
  import opened TopologyDiff
  import opened PhysMap
  import opened Dispatch
  import opened Memory

  /** The graph shows the whole page of `x` as one piece, in step with the region that answers at `x`. */
  ghost predicate PageShown(page: nat, g: Graph, root: Option<RegionId>, x: nat, o: Owner)
    requires page > 0 && Acyclic(g) && (root.Some? ==> root.value in g)
  {
    && (o.offset - x) % page == 0
    && forall y: int | x / page * page <= y < x / page * page + page ::
         Visible(g, root, y) == Some(o.(offset := o.offset + (y - x)))
  }

  /** Where an access at `x` ends up: the region and the offset that the graph shows there, except that RAM is
      reached through the sub-page RAM handler where its page is not shown whole and in step. */
  ghost function Served(page: nat, ram: set<RegionId>, g: Graph, root: Option<RegionId>, x: nat): Reached
    requires page > 0 && Acyclic(g) && (root.Some? ==> root.value in g)
  {
    match Visible(g, root, x)
    case None => Reached(Unassigned, x)
    case Some(o) => Reached(if o.mr in ram && !PageShown(page, g, root, x, o) then SubpageRam else Mr(o.mr), o.offset)
  }

  /** The first `upto` spaces are loaded: every address in the span of the page map reaches what the view of
      its space shows. */
  ghost predicate Loaded(d: Dispatch.State, spaces: seq<Space>, ram: set<RegionId>, upto: nat) {
    && d.Valid() && upto <= |spaces| == |d.tree.roots|
    && (forall i | 0 <= i < upto :: Loadable(d, spaces[i].view))
    && forall i: nat, x: nat {:trigger d.Answer(i, x)} | i < upto && d.InSpan(x) ::
         d.Answer(i, x) == Expected(d.page, ram, spaces[i].view, x)
  }

  /** Every access at an address in the span of the page map ends up where the graph says. */
  ghost predicate PhysicalAgrees(d: Dispatch.State, g: Graph, spaces: seq<Space>, ram: set<RegionId>)
    requires Acyclic(g) && RootsIn(g, spaces)
  {
    && d.Valid() && d.page > 0 && |spaces| == |d.tree.roots|
    && forall i: nat, x: nat {:trigger d.Answer(i, x)} | i < |spaces| && d.InSpan(x) ::
         d.Answer(i, x) == Served(d.page, ram, g, spaces[i].root, x)
  }

  function SumPieces(page: nat, views: seq<seq<FlatRange>>): nat
    requires page > 0
  {
    if views == [] then 0 else TotalPieces(page, views[0]) + SumPieces(page, views[1..])
  }

  /** The views of a commit fit the page map: inside its span, and small enough for its 15-bit indices. */
  ghost predicate Fits(d: Dispatch.State, views: seq<seq<FlatRange>>, sections: nat, nodes: nat)
    requires d.page > 0 && d.tree.levels > 0
  {
    && (forall i | 0 <= i < |views| :: Loadable(d, views[i]))
    && Room(sections, nodes, d.tree.levels, SumPieces(d.page, views))
  }

  lemma ExpectedServes(d: Dispatch.State, ram: set<RegionId>, g: Graph, root: Option<RegionId>, v: seq<FlatRange>,
                       x: nat)
    requires Acyclic(g) && (root.Some? ==> root.value in g) && IsRendering(g, root, v) && d.page > 0 && Loadable(d, v)
    ensures Expected(d.page, ram, v, x) == Served(d.page, ram, g, root, x)
  {
    hide Visible, Acyclic, Simplified, Expected, Sorted, Lookup;
    ExpectedIsLookup(d.page, ram, v, x);
    assert Lookup(v, x) == Visible(g, root, x);
    if Lookup(v, x).Some? {
      SamePage(d.page, g, root, v, x, Lookup(v, x).value);
    }
  }

  lemma SamePage(page: nat, g: Graph, root: Option<RegionId>, v: seq<FlatRange>, x: nat, o: Owner)
    requires page > 0 && Acyclic(g) && (root.Some? ==> root.value in g) && IsRendering(g, root, v)
    ensures PageIn(page, v, x, o) <==> PageShown(page, g, root, x, o)
  {
    hide Visible, Acyclic, Simplified, Sorted, Lookup;
    forall y
      ensures Lookup(v, y) == Visible(g, root, y)
    {
    }
  }

  /** Loaded maps that agree with the graph make every access agree with it. */
  lemma LoadedServes(d: Dispatch.State, g: Graph, spaces: seq<Space>, ram: set<RegionId>)
    requires Acyclic(g) && RootsIn(g, spaces) && Agree(g, spaces) && Loaded(d, spaces, ram, |spaces|)
    ensures PhysicalAgrees(d, g, spaces, ram)
  {
    hide Visible, Acyclic, IsRendering, Expected, Served, State.Valid, State.Answer, Agree, Loadable;
    Bounds(d);
    forall i: nat, x: nat {:trigger d.Answer(i, x)} | i < |spaces| && d.InSpan(x)
      ensures d.Answer(i, x) == Served(d.page, ram, g, spaces[i].root, x)
    {
      SpaceAgrees(g, spaces, i);
      ExpectedServes(d, ram, g, spaces[i].root, spaces[i].view, x);
    }
  }

  /** An update reloads exactly the new view. */
  lemma UpdateReloads(olds: seq<FlatRange>, news: seq<FlatRange>)
    ensures Reloaded(Deletions(olds, news) + Additions(olds, news)) == news
  {
    ReloadedConcat(Deletions(olds, news), Additions(olds, news));
    DeletionsReloadNothing(olds, news);
    AdditionsReloadAll(olds, news);
  }

  function Views(spaces: seq<Space>): (views: seq<seq<FlatRange>>)
    ensures |views| == |spaces| && forall i | 0 <= i < |views| :: views[i] == spaces[i].view
  {
    seq(|spaces|, i requires 0 <= i < |spaces| => spaces[i].view)
  }

  ghost predicate VacantFrom(d: Dispatch.State, i: nat) {
    forall sp: nat, pg: nat | i <= sp < |d.tree.roots| && pg < Pages(d.tree.levels) :: d.Vacant(sp, pg)
  }

  lemma NextSpace(d0: Dispatch.State, d: Dispatch.State, i: nat, ram: set<RegionId>, spaces: seq<Space>)
    requires i < |spaces| && Loaded(d0, spaces, ram, i) && VacantFrom(d0, i)
    requires LoadedRanges(d0, d, i, ram, spaces[i].view) && OthersKept(d0, d, i)
    ensures Loaded(d, spaces, ram, i + 1) && VacantFrom(d, i + 1)
  {
    hide Expected, State.Valid, State.Answer, Tree.At;
    forall q: nat, x: nat {:trigger d.Answer(q, x)} | q < i + 1 && d.InSpan(x)
      ensures d.Answer(q, x) == Expected(d.page, ram, spaces[q].view, x)
    {
      assert q != i ==> d.Answer(q, x) == d0.Answer(q, x);
    }
    forall sp: nat, pg: nat | i + 1 <= sp < |d.tree.roots| && pg < Pages(d.tree.levels)
      ensures d.Vacant(sp, pg)
    {
      assert d0.Vacant(sp, pg);
      assert d.tree.At(sp, pg) == d0.tree.At(sp, pg);
    }
  }

  lemma SpaceAgrees(g: Graph, spaces: seq<Space>, i: nat)
    requires Acyclic(g) && RootsIn(g, spaces) && Agree(g, spaces) && i < |spaces|
    ensures spaces[i].root.Some? ==> spaces[i].root.value in g
    ensures IsRendering(g, spaces[i].root, spaces[i].view) && Sorted(spaces[i].view)
  {
  }

  lemma SameLoadable(d0: Dispatch.State, d: Dispatch.State, v: seq<FlatRange>)
    requires d.page == d0.page && d.tree.levels == d0.tree.levels
    ensures Loadable(d, v) <==> Loadable(d0, v)
  {
  }

  lemma HeardSize(before: seq<Space>, after: seq<Space>, told: seq<seq<Event>>)
    requires Heard(before, after, told) && told != []
    ensures |told| == |after| == |before|
  {
  }

  lemma VacantSpace(d: Dispatch.State, i: nat)
    requires VacantFrom(d, i) && i < |d.tree.roots|
    ensures forall pg: nat | pg < Pages(d.tree.levels) :: d.Vacant(i, pg)
  {
  }

  lemma PiecesFrom(page: nat, views: seq<seq<FlatRange>>, i: nat)
    requires page > 0 && i < |views|
    ensures SumPieces(page, views[i..]) == TotalPieces(page, views[i]) + SumPieces(page, views[i + 1..])
  {
    assert views[i..][0] == views[i] && views[i..][1..] == views[i + 1..];
  }

  lemma NothingLoaded(d: Dispatch.State, spaces: seq<Space>, ram: set<RegionId>)
    requires d.Valid() && |d.tree.roots| == |spaces|
    requires forall sp: nat, pg: nat | sp < |d.tree.roots| && pg < Pages(d.tree.levels) :: d.Vacant(sp, pg)
    ensures Loaded(d, spaces, ram, 0) && VacantFrom(d, 0)
  {
  }

  lemma LoadedSizes(d: Dispatch.State, spaces: seq<Space>, ram: set<RegionId>, i: nat)
    requires Loaded(d, spaces, ram, i)
    ensures |d.tree.roots| == |spaces|
  {
  }

  lemma FitsAt(d: Dispatch.State, views: seq<seq<FlatRange>>, sections: nat, nodes: nat, i: nat)
    requires d.page > 0 && d.tree.levels > 0 && Fits(d, views, sections, nodes) && i < |views|
    ensures Loadable(d, views[i])
  {
  }

  lemma HeardAt(before: seq<Space>, after: seq<Space>, told: seq<seq<Event>>, i: nat)
    requires Heard(before, after, told) && told != [] && i < |after|
    ensures |told| == |after| == |before| && Reloaded(told[i]) == after[i].view
    ensures told[i] == Deletions(before[i].view, after[i].view) + Additions(before[i].view, after[i].view)
  {
    UpdateReloads(before[i].view, after[i].view);
  }

  /** The dispatch listeners of every space hear of an update: the tables are cleared and built again for the
      new views.  It is not `ok` only when a view leaves the span of the page map or the indices run out. */
  method ReloadAll(disp: PhysDispatch, told: seq<seq<Event>>, ghost before: seq<Space>, ghost after: seq<Space>)
    returns (ok: bool)
    requires disp.Valid() && |disp.pages.roots| == |after| && disp.pages.levels > 0
    requires told != [] && Heard(before, after, told) && forall i | 0 <= i < |after| :: Sorted(after[i].view)
    modifies disp, disp.pages
    ensures ok ==> disp.Valid() && |disp.pages.roots| == |after| && Loaded(disp.S(), after, disp.ram, |after|)
    ensures !ok ==> disp.Full() || exists i :: 0 <= i < |after| && !Loadable(old(disp.S()), after[i].view)
    ensures disp.page > 0 && Fits(old(disp.S()), Views(after), 4, 0) ==> ok
  {
    hide Deletions, Additions, Tree.Valid, Tree.At, State.Valid, State.Answer, Loadable, Room, TotalPieces, SumPieces,
      LoadedRanges, OthersKept, VacantFrom, Reloaded, Pages, Loaded, Sorted, Heard;
    ghost var start := disp.S();
    ghost var views := Views(after);
    Bounds(start);
    ghost var fits := Fits(start, views, 4, 0);
    disp.Begin();
    NothingLoaded(disp.S(), after, disp.ram);
    assert views[0..] == views;
    HeardSize(before, after, told);
    var i := 0;
    while i < |told|
      modifies disp, disp.pages
      invariant i <= |told| == |after| && disp.Valid() && |disp.pages.roots| == |after|
      invariant Loaded(disp.S(), after, disp.ram, i) && VacantFrom(disp.S(), i)
      invariant fits ==> Room(|disp.sections|, |disp.pages.nodes|, disp.pages.levels, SumPieces(disp.page, views[i..]))
    {
      ghost var d := disp.S();
      ghost var room := SumPieces(disp.page, views[i..]);
      HeardAt(before, after, told, i);
      SameLoadable(start, d, views[i]);
      if fits {
        FitsAt(start, views, 4, 0, i);
      }
      VacantSpace(d, i);
      PiecesFrom(disp.page, views, i);
      ok := disp.Replay(i, told[i], room);
      if !ok {
        return;
      }
      NextSpace(d, disp.S(), i, disp.ram, after);
      LoadedSizes(disp.S(), after, disp.ram, i + 1);
      i := i + 1;
    }
    ok := true;
  }

  /** The commit that closes the outermost transaction with an update pending: the maps are rebuilt, their
      differences told to the dispatch listeners, and then for every address space and every address in the
      physical span the radix walk and the sub-page table together reach the region, and the offset in it,
      that the direct lookup over the region graph gives. */
  method CommitPhysical(core: MemoryCore, disp: PhysDispatch) returns (ok: bool)
    requires core.Sound() && core.depth == 1 && core.pending && core.spaces != []
    requires disp.Valid() && |disp.pages.roots| == |core.spaces| && disp.pages.levels > 0
    modifies core, disp, disp.pages
    ensures core.Valid() && core.depth == 0 && core.regions == old(core.regions)
    ensures ok ==> disp.Valid() && PhysicalAgrees(disp.S(), core.regions, core.spaces, disp.ram)
    ensures !ok ==> disp.Full() || exists i :: 0 <= i < |core.spaces| && !Loadable(old(disp.S()), core.spaces[i].view)
    ensures disp.page > 0 && Fits(old(disp.S()), Views(core.spaces), 4, 0) ==> ok
  {
    hide IsRendering, Acyclic, GraphOk, Agree, State.Valid, Loadable, Room, SumPieces, Loaded, Visible, RootsIn, Sorted,
      Deletions, Additions;
    var told := core.TransactionCommit();
    ok := ReloadAll(disp, told, old(core.spaces), core.spaces);
    if ok {
      LoadedServes(disp.S(), core.regions, core.spaces, disp.ram);
    }
  }
}
