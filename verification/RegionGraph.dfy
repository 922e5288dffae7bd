/** Address ranges and the graph of memory regions (memory.c).  Int128 is modelled by `int`. */
module RegionGraph {
  import opened Prelude

  const ADDRESS_SPACE_SIZE: int := 0x1_0000_0000_0000_0000

  datatype AddrRange = AddrRange(start: int, size: int) {
    function End(): int {
      start + size
    }

    predicate Contains(x: int) {
      start <= x < End()
    }

    predicate Intersects(other: AddrRange) {
      Contains(other.start) || other.Contains(start)
    }

    function Intersection(other: AddrRange): AddrRange {
      var s := Max(start, other.start);
      AddrRange(s, Min(End(), other.End()) - s)
    }
  }

  type RegionId = nat

  /** A MemoryRegion.  `subregions` is kept in the order in which the regions obscure each other. */
  datatype Region = Region(
    addr: nat,
    size: nat,
    enabled: bool,
    terminates: bool,
    ram: bool,
    readable: bool,
    readonly: bool,
    dirtyLogMask: bv8,
    alias: Option<RegionId>,
    aliasOffset: nat,
    subregions: seq<RegionId>,
    parent: Option<RegionId>,
    priority: int,
    mayOverlap: bool)

  type Graph = map<RegionId, Region>

  type Rank = map<RegionId, nat>

  /** Every region reached through `alias` or `subregions` exists and has a smaller rank. */
  ghost predicate Ranked(g: Graph, rank: Rank) {
    rank.Keys == g.Keys && forall m | m in g :: AllBelow(g, rank, m)
  }

  ghost predicate AllBelow(g: Graph, rank: Rank, m: RegionId)
    requires m in g && m in rank
  {
    && (g[m].alias.Some? ==> g[m].alias.value in g && g[m].alias.value in rank && rank[g[m].alias.value] < rank[m])
    && (forall s | s in g[m].subregions :: s in g && s in rank && rank[s] < rank[m])
  }

  /** The alias and subregion links form no cycle. */
  ghost predicate Acyclic(g: Graph) {
    exists rank: Rank :: Ranked(g, rank)
  }

  /** The region that answers for one address, where the address lies in it, and its attributes. */
  datatype Owner = Owner(mr: RegionId, offset: int, dirtyLogMask: bv8, readable: bool, readonly: bool)

  /** The direct recursive lookup: which terminating region answers for address `x` when region
      `mr` is placed at `base`.  It knows nothing of clipping, of views or of rendering order. */
  ghost function Resolve(g: Graph, rank: Rank, mr: RegionId, base: int, readonly: bool, x: int): Option<Owner>
    requires Ranked(g, rank) && mr in g
    decreases rank[mr], 1, 0
  {
    assert AllBelow(g, rank, mr);
    var r := g[mr];
    var here := base + r.addr;
    var ro := readonly || r.readonly;
    if !r.enabled || !(here <= x < here + r.size) then
      None
    else if r.alias.Some? then
      Resolve(g, rank, r.alias.value, here - g[r.alias.value].addr - r.aliasOffset, ro, x)
    else
      var sub := ResolveFirst(g, rank, r.subregions, rank[mr], here, ro, x);
      if sub.Some? then sub
      else if r.terminates then Some(Owner(mr, x - here, r.dirtyLogMask, r.readable, ro))
      else None
  }

  /** The first of `subs` that answers for `x`. */
  ghost function ResolveFirst(g: Graph, rank: Rank, subs: seq<RegionId>, bound: nat,
                              base: int, readonly: bool, x: int): Option<Owner>
    requires Ranked(g, rank)
    requires forall s | s in subs :: s in g && rank[s] < bound
    decreases bound, 0, |subs|
  {
    if subs == [] then None
    else
      var first := Resolve(g, rank, subs[0], base, readonly, x);
      if first.Some? then first
      else ResolveFirst(g, rank, subs[1..], bound, base, readonly, x)
  }

  function Over(a: Option<Owner>, b: Option<Owner>): Option<Owner> {
    if a.Some? then a else b
  }

  lemma {:induction false} ResolveFirstSnoc(g: Graph, rank: Rank, subs: seq<RegionId>, last: RegionId, bound: nat,
                                            base: int, readonly: bool, x: int)
    requires Ranked(g, rank)
    requires forall s | s in subs + [last] :: s in g && rank[s] < bound
    ensures ResolveFirst(g, rank, subs + [last], bound, base, readonly, x) ==
            Over(ResolveFirst(g, rank, subs, bound, base, readonly, x), Resolve(g, rank, last, base, readonly, x))
  {
    assert last in subs + [last];
    if subs == [] {
      assert [] + [last] == [last];
    } else {
      assert (subs + [last])[0] == subs[0] && (subs + [last])[1..] == subs[1..] + [last];
      assert forall s | s in subs[1..] + [last] :: s in subs + [last];
      ResolveFirstSnoc(g, rank, subs[1..], last, bound, base, readonly, x);
    }
  }

  lemma RankedAt(g: Graph, rank: Rank, mr: RegionId)
    requires Ranked(g, rank) && mr in g
    ensures mr in rank
    ensures g[mr].alias.Some? ==>
      g[mr].alias.value in g && g[mr].alias.value in rank && rank[g[mr].alias.value] < rank[mr]
    ensures forall s | s in g[mr].subregions :: s in g && s in rank && rank[s] < rank[mr]
  {
    assert AllBelow(g, rank, mr);
  }

  /** The rank only serves termination: every ranking gives the same answer. */
  lemma {:induction false} ResolveIgnoresRank(g: Graph, r1: Rank, r2: Rank, mr: RegionId, base: int, readonly: bool,
                                              x: int)
    requires Ranked(g, r1) && Ranked(g, r2) && mr in g
    ensures Resolve(g, r1, mr, base, readonly, x) == Resolve(g, r2, mr, base, readonly, x)
    decreases r1[mr], 1, 0
  {
    hide Ranked;
    RankedAt(g, r1, mr);
    RankedAt(g, r2, mr);
    var r := g[mr];
    var here := base + r.addr;
    var ro := readonly || r.readonly;
    if r.alias.Some? {
      ResolveIgnoresRank(g, r1, r2, r.alias.value, here - g[r.alias.value].addr - r.aliasOffset, ro, x);
    } else {
      ResolveFirstIgnoresRank(g, r1, r2, r.subregions, r1[mr], r2[mr], here, ro, x);
    }
  }

  lemma {:induction false} ResolveFirstIgnoresRank(g: Graph, r1: Rank, r2: Rank, subs: seq<RegionId>,
                                                   b1: nat, b2: nat, base: int, readonly: bool, x: int)
    requires Ranked(g, r1) && Ranked(g, r2)
    requires forall s | s in subs :: s in g && r1[s] < b1 && r2[s] < b2
    ensures ResolveFirst(g, r1, subs, b1, base, readonly, x) == ResolveFirst(g, r2, subs, b2, base, readonly, x)
    decreases b1, 0, |subs|
  {
    if subs != [] {
      ResolveIgnoresRank(g, r1, r2, subs[0], base, readonly, x);
      ResolveFirstIgnoresRank(g, r1, r2, subs[1..], b1, b2, base, readonly, x);
    }
  }

  /** Placing a region `d` further on moves everything it answers for by `d`. */
  lemma {:induction false} ResolveShift(g: Graph, rank: Rank, mr: RegionId, base: int, readonly: bool, x: int, d: int)
    requires Ranked(g, rank) && mr in g
    ensures Resolve(g, rank, mr, base + d, readonly, x + d) == Resolve(g, rank, mr, base, readonly, x)
    decreases rank[mr], 1, 0
  {
    hide Ranked;
    RankedAt(g, rank, mr);
    var r := g[mr];
    var here := base + r.addr;
    var ro := readonly || r.readonly;
    if r.alias.Some? {
      ResolveShift(g, rank, r.alias.value, here - g[r.alias.value].addr - r.aliasOffset, ro, x, d);
    } else {
      ResolveFirstShift(g, rank, r.subregions, rank[mr], here, ro, x, d);
    }
  }

  lemma {:induction false} ResolveFirstShift(g: Graph, rank: Rank, subs: seq<RegionId>, bound: nat,
                                             base: int, readonly: bool, x: int, d: int)
    requires Ranked(g, rank)
    requires forall s | s in subs :: s in g && rank[s] < bound
    ensures ResolveFirst(g, rank, subs, bound, base + d, readonly, x + d) ==
            ResolveFirst(g, rank, subs, bound, base, readonly, x)
    decreases bound, 0, |subs|
  {
    hide Ranked;
    if subs != [] {
      ResolveShift(g, rank, subs[0], base, readonly, x, d);
      ResolveFirstShift(g, rank, subs[1..], bound, base, readonly, x, d);
    }
  }

  /** What an address space rooted at `root` shows at address `x`. */
  ghost function Visible(g: Graph, root: Option<RegionId>, x: int): Option<Owner>
    requires Acyclic(g) && (root.Some? ==> root.value in g)
  {
    if root.None? || !(0 <= x < ADDRESS_SPACE_SIZE) then None
    else
      var rank :| Ranked(g, rank);
      Resolve(g, rank, root.value, 0, false, x)
  }

  lemma VisibleByRank(g: Graph, rank: Rank, root: RegionId, x: int)
    requires Ranked(g, rank) && root in g && 0 <= x < ADDRESS_SPACE_SIZE
    ensures Acyclic(g)
    ensures Visible(g, Some(root), x) == Resolve(g, rank, root, 0, false, x)
  {
    var r :| Ranked(g, r) && Visible(g, Some(root), x) == Resolve(g, r, root, 0, false, x);
    ResolveIgnoresRank(g, r, rank, root, 0, false, x);
  }
}
