/** Loading a flat view into the physical page map, with sub-page tables for what is not page sized (exec.c). */
module Dispatch {
  import opened Prelude
  import opened Arithmetic
  import opened RegionGraph
  import opened FlatViews
  import opened TopologyDiff
  import opened PhysMap

  /** Section indices are kept in 15 bits. */
  const SECTION_LIMIT: nat := 0x8000

  /** The region of a section: a region of the graph, or one of the regions exec.c makes itself. */
  datatype Target =
    | Unassigned
    | NotDirty
    | Rom
    | Watch
    | SubpageRam
    | SubpageTable(index: nat)
    | Mr(id: RegionId)

  datatype MemorySection = MemorySection(mr: Target, start: nat, offset: int, size: nat)

  /** subpage_t: a section index for every byte of one page. */
  datatype Subpage = Subpage(space: nat, base: nat, table: seq<nat>)

  /** Where an access ends up: a region and the offset handed to it. */
  datatype Reached = Reached(mr: Target, offset: int)

  const UNASSIGNED_SECTION := MemorySection(Unassigned, 0, 0, 0xffff_ffff_ffff_ffff)

  const FIXED_SECTIONS: seq<MemorySection> :=
    [UNASSIGNED_SECTION,
     UNASSIGNED_SECTION.(mr := NotDirty),
     UNASSIGNED_SECTION.(mr := Rom),
     UNASSIGNED_SECTION.(mr := Watch)]

  /** The whole dispatch state as a value. */
  datatype State = State(tree: Tree, page: nat, sections: seq<MemorySection>, tables: seq<Subpage>) {

    ghost predicate PageOk(sp: nat, pg: nat)
      requires sp < |tree.roots|
    {
      var i := tree.At(sp, pg).section;
      i < |sections| &&
      (sections[i].mr.SubpageTable? ==>
         var k := sections[i].mr.index;
         k < |tables| && tables[k].space == sp && tables[k].base == pg * page)
    }

    ghost predicate TableOk(k: nat)
      requires k < |tables|
    {
      && |tables[k].table| == page
      && forall b | 0 <= b < page ::
           tables[k].table[b] < |sections| && !sections[tables[k].table[b]].mr.SubpageTable?
    }

    ghost predicate Valid() {
      && tree.Valid() && page > 0
      && 0 < |sections| && sections[UNASSIGNED] == UNASSIGNED_SECTION
      && (forall k | 0 <= k < |tables| :: TableOk(k))
      && (forall sp: nat, pg: nat | sp < |tree.roots| && pg < Pages(tree.levels) :: PageOk(sp, pg))
    }

    ghost predicate InSpan(x: nat) {
      page > 0 && x / page < Pages(tree.levels)
    }

    /** The section that answers for an address: by the page map, then by the sub-page table. */
    ghost function SectionAt(sp: nat, x: nat): nat
      requires Valid() && sp < |tree.roots| && InSpan(x)
      ensures SectionAt(sp, x) < |sections|
    {
      assert PageOk(sp, x / page);
      var i := tree.At(sp, x / page).section;
      if sections[i].mr.SubpageTable? then
        assert TableOk(sections[i].mr.index);
        tables[sections[i].mr.index].table[x % page]
      else i
    }

    ghost function Answer(sp: nat, x: nat): Reached
      requires Valid() && sp < |tree.roots| && InSpan(x)
    {
      var s := sections[SectionAt(sp, x)];
      Reached(s.mr, x - s.start + s.offset)
    }

    /** Nothing maps the page. */
    ghost predicate Vacant(sp: nat, pg: nat)
      requires sp < |tree.roots|
    {
      tree.At(sp, pg) == Hit(UNASSIGNED, false)
    }

    /** The page is vacant or split into bytes: this is what register_subpage asserts. */
    ghost predicate Open(sp: nat, pg: nat)
      requires sp < |tree.roots|
    {
      Vacant(sp, pg) || (var i := tree.At(sp, pg).section; i < |sections| && sections[i].mr.SubpageTable?)
    }
  }

  /** `d'` answers like `d` except on the addresses of section `sec` of space `sp`, which reach `mr`. */
  ghost predicate Mapped(d: State, d': State, sp: nat, sec: MemorySection, mr: Target) {
    && d.Valid() && d'.Valid() && d'.page == d.page && d'.tree.levels == d.tree.levels
    && |d'.tree.roots| == |d.tree.roots|
    && forall q: nat, x: nat {:trigger d'.Answer(q, x)} | q < |d.tree.roots| && d.InSpan(x) ::
         d'.Answer(q, x) ==
         if q == sp && sec.start <= x < sec.start + sec.size then Reached(mr, x - sec.start + sec.offset)
         else d.Answer(q, x)
  }

  /** Pages outside [from, to) of space `sp` are mapped as before. */
  ghost predicate PagesKept(d: State, d': State, sp: nat, from: int, to: int) {
    && d'.page == d.page && d'.tree.levels == d.tree.levels && |d'.tree.roots| == |d.tree.roots|
    && d.sections <= d'.sections
    && forall q: nat, pg: nat {:trigger d'.tree.At(q, pg)} |
         q < |d.tree.roots| && pg < Pages(d.tree.levels) && !(q == sp && from <= pg < to) ::
         d'.tree.At(q, pg) == d.tree.At(q, pg)
  }

  ghost predicate SameAnswers(d: State, d': State) {
    && d.Valid() && d'.Valid() && d'.page == d.page && d'.tree.levels == d.tree.levels
    && |d'.tree.roots| == |d.tree.roots|
    && forall q: nat, x: nat {:trigger d'.Answer(q, x)} | q < |d.tree.roots| && d.InSpan(x) ::
         d'.Answer(q, x) == d.Answer(q, x)
  }

  lemma MappedValid(d: State, d': State, sp: nat, sec: MemorySection, mr: Target)
    requires Mapped(d, d', sp, sec, mr)
    ensures d'.Valid()
  {
  }

  lemma SameSizes(d: State, d': State)
    requires SameAnswers(d, d')
    ensures d'.page == d.page && d'.tree.levels == d.tree.levels && |d'.tree.roots| == |d.tree.roots|
  {
  }

  lemma SameIsValid(d: State, d': State)
    requires SameAnswers(d, d')
    ensures d'.Valid()
  {
  }

  lemma SameRefl(d: State, sp: nat, pg: nat)
    requires d.Valid()
    ensures SameAnswers(d, d) && PagesKept(d, d, sp, pg, pg + 1)
  {
  }

  lemma AppendSection(d: State, sec: MemorySection)
    requires d.Valid()
    ensures SameAnswers(d, d.(sections := d.sections + [sec]))
    ensures forall sp: nat :: PagesKept(d, d.(sections := d.sections + [sec]), sp, 0, 0)
  {
    hide Tree.Valid, Tree.At;
    var d' := d.(sections := d.sections + [sec]);
    forall k | 0 <= k < |d'.tables|
      ensures d'.TableOk(k)
    {
      assert d.TableOk(k);
    }
    forall q: nat, pg: nat | q < |d'.tree.roots| && pg < Pages(d'.tree.levels)
      ensures d'.PageOk(q, pg)
    {
      assert d.PageOk(q, pg);
    }
    forall q: nat, x: nat {:trigger d'.Answer(q, x)} | q < |d.tree.roots| && d.InSpan(x)
      ensures d'.Answer(q, x) == d.Answer(q, x)
    {
      assert d.PageOk(q, x / d.page);
    }
  }

  /** The state after page `pg` has been given a sub-page table, empty as yet. */
  ghost function SplitPage(d: State, sp: nat, pg: nat, tree': Tree): State {
    State(tree', d.page,
          d.sections + [MemorySection(SubpageTable(|d.tables|), pg * d.page, 0, d.page)],
          d.tables + [Subpage(sp, pg * d.page, seq(d.page, _ => UNASSIGNED))])
  }

  lemma SplitValid(d: State, sp: nat, pg: nat, tree': Tree)
    requires d.Valid() && sp < |d.tree.roots| && pg < Pages(d.tree.levels)
    requires tree'.Valid() && Updated(d.tree, tree', sp, pg, pg + 1, |d.sections|)
    ensures SplitPage(d, sp, pg, tree').Valid()
  {
    hide Tree.Valid, Tree.At;
    var d' := SplitPage(d, sp, pg, tree');
    forall k | 0 <= k < |d'.tables|
      ensures d'.TableOk(k)
    {
      if k < |d.tables| {
        assert d.TableOk(k);
      }
    }
    forall q: nat, g: nat | q < |d'.tree.roots| && g < Pages(d'.tree.levels)
      ensures d'.PageOk(q, g)
    {
      assert tree'.At(q, g) == tree'.At(q, g);
      if !(q == sp && g == pg) {
        assert d.PageOk(q, g);
      }
    }
  }

  lemma SplitKeeps(d: State, sp: nat, pg: nat, tree': Tree)
    requires d.Valid() && sp < |d.tree.roots| && pg < Pages(d.tree.levels) && d.Vacant(sp, pg)
    requires tree'.Valid() && Updated(d.tree, tree', sp, pg, pg + 1, |d.sections|)
    ensures SameAnswers(d, SplitPage(d, sp, pg, tree'))
    ensures PagesKept(d, SplitPage(d, sp, pg, tree'), sp, pg, pg + 1)
    ensures SplitPage(d, sp, pg, tree').tree.At(sp, pg).section == |d.sections|
  {
    hide Tree.Valid, Tree.At;
    SplitValid(d, sp, pg, tree');
    var d' := SplitPage(d, sp, pg, tree');
    forall q: nat, x: nat {:trigger d'.Answer(q, x)} | q < |d.tree.roots| && d.InSpan(x)
      ensures d'.Answer(q, x) == d.Answer(q, x)
    {
      assert tree'.At(q, x / d.page) == tree'.At(q, x / d.page);
      if q == sp && x / d.page == pg {
        assert d'.SectionAt(q, x) == UNASSIGNED;
      } else {
        assert d.PageOk(q, x / d.page);
        assert d'.SectionAt(q, x) == d.SectionAt(q, x);
      }
    }
  }

  /** The table with the bytes [from, to) sent to section `i`. */
  function Filled(table: seq<nat>, from: nat, to: int, i: nat): (r: seq<nat>)
    ensures |r| == |table|
    ensures forall b | 0 <= b < |r| :: r[b] == if from <= b < to then i else table[b]
  {
    seq(|table|, b requires 0 <= b < |table| => if from <= b < to then i else table[b])
  }

  ghost function FillTable(d: State, k: nat, from: nat, to: int, i: nat): State
    requires k < |d.tables|
  {
    d.(tables := d.tables[k := d.tables[k].(table := Filled(d.tables[k].table, from, to, i))])
  }

  lemma FillValid(d: State, k: nat, from: nat, to: int, i: nat)
    requires d.Valid() && k < |d.tables| && i < |d.sections| && !d.sections[i].mr.SubpageTable?
    ensures FillTable(d, k, from, to, i).Valid()
  {
    hide Tree.Valid, Tree.At;
    var d' := FillTable(d, k, from, to, i);
    forall j | 0 <= j < |d'.tables|
      ensures d'.TableOk(j)
    {
      assert d.TableOk(j);
    }
    forall q: nat, g: nat | q < |d'.tree.roots| && g < Pages(d'.tree.levels)
      ensures d'.PageOk(q, g)
    {
      assert d.PageOk(q, g);
    }
  }

  /** Filling part of a page's table maps exactly those bytes of that page. */
  lemma FillMaps(d: State, sp: nat, pg: nat, k: nat, i: nat, sec: MemorySection)
    requires d.Valid() && sp < |d.tree.roots| && pg < Pages(d.tree.levels)
    requires d.tree.At(sp, pg).section < |d.sections| && d.sections[d.tree.At(sp, pg).section].mr == SubpageTable(k)
    requires k < |d.tables| && i < |d.sections| && d.sections[i] == sec && !sec.mr.SubpageTable?
    requires pg * d.page <= sec.start && sec.start + sec.size <= pg * d.page + d.page
    ensures var d' := FillTable(d, k, sec.start - pg * d.page, sec.start - pg * d.page + sec.size, i);
      Mapped(d, d', sp, sec, sec.mr)
  {
    hide Tree.Valid, Tree.At;
    var from := sec.start - pg * d.page;
    var d' := FillTable(d, k, from, from + sec.size, i);
    FillValid(d, k, from, from + sec.size, i);
    forall q: nat, x: nat {:trigger d'.Answer(q, x)} | q < |d.tree.roots| && d.InSpan(x)
      ensures d'.Answer(q, x) ==
              if q == sp && sec.start <= x < sec.start + sec.size then Reached(sec.mr, x - sec.start + sec.offset)
              else d.Answer(q, x)
    {
      FillOneMaps(d, sp, pg, k, i, sec, q, x);
    }
  }

  lemma FillOneMaps(d: State, sp: nat, pg: nat, k: nat, i: nat, sec: MemorySection, q: nat, x: nat)
    requires d.Valid() && sp < |d.tree.roots| && pg < Pages(d.tree.levels)
    requires d.tree.At(sp, pg).section < |d.sections| && d.sections[d.tree.At(sp, pg).section].mr == SubpageTable(k)
    requires k < |d.tables| && i < |d.sections| && d.sections[i] == sec && !sec.mr.SubpageTable?
    requires pg * d.page <= sec.start && sec.start + sec.size <= pg * d.page + d.page
    requires q < |d.tree.roots| && d.InSpan(x)
    ensures var d' := FillTable(d, k, sec.start - pg * d.page, sec.start - pg * d.page + sec.size, i);
      d'.Valid() && d'.Answer(q, x) ==
      if q == sp && sec.start <= x < sec.start + sec.size then Reached(sec.mr, x - sec.start + sec.offset)
      else d.Answer(q, x)
  {
    hide Tree.Valid, Tree.At;
    var from := sec.start - pg * d.page;
    var d' := FillTable(d, k, from, from + sec.size, i);
    FillValid(d, k, from, from + sec.size, i);
    assert d.PageOk(sp, pg) && d.PageOk(q, x / d.page);
    DivBounds(x, d.page);
    var s := d.sections[d.tree.At(q, x / d.page).section];
    if q == sp && sec.start <= x < sec.start + sec.size {
      DivIs(x, d.page, pg);
      assert d.TableOk(k);
      assert d'.tables[k].table[x % d.page] == i;
      assert d'.SectionAt(q, x) == i;
    } else {
      if s.mr.SubpageTable? {
        assert d.TableOk(s.mr.index);
        if s.mr.index == k {
          SamePage(pg, x / d.page, d.page);
          assert d'.tables[k].table[x % d.page] == d.tables[k].table[x % d.page];
        }
      }
      assert d'.SectionAt(q, x) == d.SectionAt(q, x);
    }
  }

  lemma SamePage(a: nat, b: nat, page: nat)
    requires page > 0 && a * page == b * page
    ensures a == b
  {
    if a < b {
      MulLess(a, b, page);
    } else if b < a {
      MulLess(b, a, page);
    }
  }

  ghost function MapPages(d: State, sec: MemorySection, tree': Tree): State {
    State(tree', d.page, d.sections + [sec], d.tables)
  }

  /** Setting whole pages maps exactly their addresses. */
  lemma PagesMap(d: State, sp: nat, pg: nat, n: nat, sec: MemorySection, tree': Tree)
    requires d.Valid() && sp < |d.tree.roots| && pg + n <= Pages(d.tree.levels)
    requires sec.start == pg * d.page && sec.size == n * d.page && !sec.mr.SubpageTable?
    requires tree'.Valid() && Updated(d.tree, tree', sp, pg, pg + n, |d.sections|)
    ensures Mapped(d, MapPages(d, sec, tree'), sp, sec, sec.mr)
    ensures PagesKept(d, MapPages(d, sec, tree'), sp, pg, pg + n)
  {
    hide Tree.Valid, Tree.At, State.Valid, State.Answer;
    var d' := MapPages(d, sec, tree');
    MapPagesValid(d, sp, pg, n, sec, tree');
    forall q: nat, x: nat {:trigger d'.Answer(q, x)} | q < |d.tree.roots| && d.InSpan(x)
      ensures d'.Answer(q, x) ==
              if q == sp && sec.start <= x < sec.start + sec.size then Reached(sec.mr, x - sec.start + sec.offset)
              else d.Answer(q, x)
    {
      PageMaps(d, sp, pg, n, sec, tree', q, x);
    }
  }

  lemma PageMaps(d: State, sp: nat, pg: nat, n: nat, sec: MemorySection, tree': Tree, q: nat, x: nat)
    requires d.Valid() && sp < |d.tree.roots| && pg + n <= Pages(d.tree.levels)
    requires sec.start == pg * d.page && sec.size == n * d.page && !sec.mr.SubpageTable?
    requires tree'.Valid() && Updated(d.tree, tree', sp, pg, pg + n, |d.sections|)
    requires q < |d.tree.roots| && d.InSpan(x) && MapPages(d, sec, tree').Valid() && MapPages(d, sec, tree').InSpan(x)
    ensures MapPages(d, sec, tree').Answer(q, x) ==
      if q == sp && sec.start <= x < sec.start + sec.size then Reached(sec.mr, x - sec.start + sec.offset)
      else d.Answer(q, x)
  {
    hide Tree.Valid, Tree.At;
    var d' := MapPages(d, sec, tree');
    assert tree'.At(q, x / d.page) == tree'.At(q, x / d.page);
    InPages(x, d.page, pg, n);
    if q == sp && pg <= x / d.page < pg + n {
      assert d'.SectionAt(q, x) == |d.sections|;
    } else {
      assert d.PageOk(q, x / d.page);
      assert d'.SectionAt(q, x) == d.SectionAt(q, x);
    }
  }

  lemma InPages(x: nat, page: nat, pg: nat, n: nat)
    requires page > 0
    ensures pg <= x / page < pg + n <==> pg * page <= x < pg * page + n * page
  {
    DivBounds(x, page);
    var g := x / page;
    assert (pg + n) * page == pg * page + n * page;
    if g < pg {
      MulLess(g, pg, page);
    } else if pg + n <= g {
      if pg + n < g {
        MulLess(pg + n, g, page);
      }
    } else {
      if pg < g {
        MulLess(pg, g, page);
      }
      MulLess(g, pg + n, page);
    }
  }

  lemma MapPagesValid(d: State, sp: nat, pg: nat, n: nat, sec: MemorySection, tree': Tree)
    requires d.Valid() && sp < |d.tree.roots| && pg + n <= Pages(d.tree.levels) && !sec.mr.SubpageTable?
    requires tree'.Valid() && Updated(d.tree, tree', sp, pg, pg + n, |d.sections|)
    ensures MapPages(d, sec, tree').Valid()
  {
    hide Tree.Valid, Tree.At;
    var d' := MapPages(d, sec, tree');
    forall k | 0 <= k < |d'.tables|
      ensures d'.TableOk(k)
    {
      assert d.TableOk(k);
    }
    forall q: nat, g: nat | q < |d'.tree.roots| && g < Pages(d'.tree.levels)
      ensures d'.PageOk(q, g)
    {
      assert tree'.At(q, g) == tree'.At(q, g);
      assert d.PageOk(q, g);
    }
  }

  // Cutting a section into pieces.

  /** A RAM region that ends up in a sub-page table is replaced by the sub-page RAM handler. */
  function Retag(ram: set<RegionId>, mr: Target): Target {
    if mr.Mr? && mr.id in ram then SubpageRam else mr
  }

  predicate WholePage(page: nat, sec: MemorySection, pg: nat) {
    sec.start <= pg * page && pg * page + page <= sec.start + sec.size
  }

  predicate Touches(page: nat, sec: MemorySection, pg: nat) {
    sec.start < pg * page + page && pg * page < sec.start + sec.size
  }

  /** The region and the address space are page aligned to each other. */
  predicate InStep(page: nat, sec: MemorySection)
    requires page > 0
  {
    (sec.offset - sec.start) % page == 0
  }

  /** What an address of the section reaches. */
  function PieceTarget(page: nat, ram: set<RegionId>, sec: MemorySection, x: nat): Target
    requires page > 0
  {
    if InStep(page, sec) && WholePage(page, sec, x / page) then sec.mr else Retag(ram, sec.mr)
  }

  /** Every page the section touches can be split, and every page it covers is still vacant. */
  ghost predicate Ready(d: State, sp: nat, sec: MemorySection) {
    && sp < |d.tree.roots|
    && (forall pg: nat | pg < Pages(d.tree.levels) && Touches(d.page, sec, pg) :: d.Open(sp, pg))
    && (forall pg: nat | pg < Pages(d.tree.levels) && WholePage(d.page, sec, pg) :: d.Vacant(sp, pg))
  }

  /** `d` answers like `d0`, but for the part of section `sec` below `upto`. */
  ghost predicate LoadedTo(d0: State, d: State, sp: nat, ram: set<RegionId>, sec: MemorySection, upto: int) {
    && d0.Valid() && d.Valid() && d.page == d0.page && d.tree.levels == d0.tree.levels
    && |d.tree.roots| == |d0.tree.roots|
    && forall q: nat, x: nat {:trigger d.Answer(q, x)} | q < |d0.tree.roots| && d0.InSpan(x) ::
         d.Answer(q, x) ==
         if q == sp && sec.start <= x < upto then Reached(PieceTarget(d0.page, ram, sec, x), x - sec.start + sec.offset)
         else d0.Answer(q, x)
  }

  lemma LoadedNext(d0: State, d: State, d': State, sp: nat, ram: set<RegionId>, sec: MemorySection,
                   piece: MemorySection, mr: Target)
    requires LoadedTo(d0, d, sp, ram, sec, piece.start) && Mapped(d, d', sp, piece, mr)
    requires sec.start <= piece.start && piece.offset - piece.start == sec.offset - sec.start
    requires forall x: nat | piece.start <= x < piece.start + piece.size :: PieceTarget(d0.page, ram, sec, x) == mr
    ensures LoadedTo(d0, d', sp, ram, sec, piece.start + piece.size)
  {
    hide State.Valid, State.Answer, PieceTarget;
    forall q: nat, x: nat {:trigger d'.Answer(q, x)} | q < |d0.tree.roots| && d0.InSpan(x)
      ensures d'.Answer(q, x) ==
         if q == sp && sec.start <= x < piece.start + piece.size
         then Reached(PieceTarget(d0.page, ram, sec, x), x - sec.start + sec.offset)
         else d0.Answer(q, x)
    {
      assert d.Answer(q, x) == d.Answer(q, x);
    }
  }

  /** Pages of `rest` that the change left alone, or split, are still ready. */
  lemma StillReady(d: State, d': State, sp: nat, sec: MemorySection, rest: MemorySection, from: int, to: int)
    requires Ready(d, sp, sec) && PagesKept(d, d', sp, from, to)
    requires sec.start <= rest.start && rest.start + rest.size == sec.start + sec.size
    requires forall pg: nat | from <= pg < to && Touches(d.page, rest, pg) && pg < Pages(d.tree.levels) ::
      d'.Open(sp, pg)
    requires forall pg: nat | from <= pg < to :: !WholePage(d.page, rest, pg)
    ensures Ready(d', sp, rest)
  {
    hide Tree.At;
    forall pg: nat | pg < Pages(d'.tree.levels) && Touches(d'.page, rest, pg)
      ensures d'.Open(sp, pg)
    {
      if !(from <= pg < to) {
        assert d'.tree.At(sp, pg) == d.tree.At(sp, pg);
        assert d.Open(sp, pg);
      }
    }
    forall pg: nat | pg < Pages(d'.tree.levels) && WholePage(d'.page, rest, pg)
      ensures d'.Vacant(sp, pg)
    {
      assert !(from <= pg < to);
      assert WholePage(d.page, sec, pg);
      assert d'.tree.At(sp, pg) == d.tree.At(sp, pg);
      assert d.Vacant(sp, pg);
    }
  }

  lemma Bounds(d: State)
    requires d.Valid()
    ensures d.page > 0 && d.tree.levels > 0 && d.tree.Valid()
    ensures 0 < |d.sections| && d.sections[UNASSIGNED] == UNASSIGNED_SECTION
  {
  }

  lemma PageIsOk(d: State, sp: nat, pg: nat)
    requires d.Valid() && sp < |d.tree.roots| && pg < Pages(d.tree.levels)
    ensures d.PageOk(sp, pg)
  {
  }

  lemma PageCount(start: nat, size: nat, page: nat)
    requires page > 0 && start % page == 0 && size % page == 0
    ensures (start + size) / page == start / page + size / page
    ensures size > 0 ==> size / page > 0
  {
    DivBounds(start, page);
    DivBounds(size, page);
    var a, b := start / page, size / page;
    assert (a + b) * page == a * page + b * page;
    DivIs(start + size, page, a + b);
  }

  /** From `d` to `e` the bytes [from, to) of table `k` have been pointed at section `i`, or at a copy of it for the
      sub-page RAM handler if it is RAM. */
  ghost predicate Entered(d: State, e: State, k: nat, from: nat, to: nat, i: nat, ram: set<RegionId>) {
    && k < |d.tables| && k < |e.tables| && i < |d.sections|
    && (var isRam := d.sections[i].mr.Mr? && d.sections[i].mr.id in ram;
        e == d.(sections := d.sections + if isRam then [d.sections[i].(mr := SubpageRam)] else [],
                tables := d.tables[k := d.tables[k].(table := e.tables[k].table)]) &&
        var table, was := e.tables[k].table, d.tables[k].table;
        && |table| == |was|
        && forall b | 0 <= b < |table| ::
             table[b] == if !(from <= b < to) then was[b] else if isRam then |d.sections| else i)
  }

  lemma RegisteredMaps(d0: State, d1: State, d2: State, d3: State, sp: nat, pg: nat, k: nat, sec: MemorySection,
                       ram: set<RegionId>)
    requires SameAnswers(d0, d1) && PagesKept(d0, d1, sp, pg, pg + 1) && SameAnswers(d1, d2)
    requires d2 == d1.(sections := d1.sections + [sec]) && sec.mr.Mr?
    requires sp < |d0.tree.roots| && pg < Pages(d0.tree.levels) && k < |d1.tables|
    requires d1.tree.At(sp, pg).section < |d1.sections| && d1.sections[d1.tree.At(sp, pg).section].mr == SubpageTable(k)
    requires d1.page > 0 && pg == Quot(sec.start, d1.page) && Rem(sec.start, d1.page) + sec.size <= d1.page
    requires var from := Rem(sec.start, d1.page);
      if from + sec.size == 0 then d3 == d2
      else Entered(d2, d3, k, from, from + sec.size, |d1.sections|, ram)
    ensures Mapped(d0, d3, sp, sec, Retag(ram, sec.mr)) && PagesKept(d0, d3, sp, pg, pg + 1) && d3.Open(sp, pg)
  {
    hide Tree.Valid, Tree.At, State.Answer, State.SectionAt, State.Valid;
    DivBounds(sec.start, d1.page);
    var from, mr := sec.start - pg * d1.page, Retag(ram, sec.mr);
    if from + sec.size != 0 {
      var e := if mr == sec.mr then d2 else d2.(sections := d2.sections + [sec.(mr := mr)]);
      AppendSection(d2, sec.(mr := mr));
      var i := if mr == sec.mr then |d1.sections| else |d1.sections| + 1;
      assert e.sections[i] == sec.(mr := mr);
      FillMaps(e, sp, pg, k, i, sec.(mr := mr));
      assert d3.tables[k].table == Filled(d2.tables[k].table, from, from + sec.size, i);
      assert d3 == FillTable(e, k, from, from + sec.size, i);
      forall q: nat, x: nat {:trigger d3.Answer(q, x)} | q < |d0.tree.roots| && d0.InSpan(x)
        ensures d3.Answer(q, x) ==
          if q == sp && sec.start <= x < sec.start + sec.size then Reached(mr, x - sec.start + sec.offset)
          else d0.Answer(q, x)
      {
        assert e.Answer(q, x) == d2.Answer(q, x);
        assert d2.Answer(q, x) == d1.Answer(q, x);
      }
    }
    forall q: nat, x: nat {:trigger d3.Answer(q, x)} | q < |d0.tree.roots| && d0.InSpan(x) && from + sec.size == 0
      ensures d3.Answer(q, x) == d0.Answer(q, x)
    {
      assert d2.Answer(q, x) == d1.Answer(q, x);
    }
  }

  /** The section without its first `n` bytes. */
  function Advance(sec: MemorySection, n: nat): MemorySection
    requires n <= sec.size
  {
    sec.(start := sec.start + n, offset := sec.offset + n, size := sec.size - n)
  }

  /** `rest` is an end part of `sec`. */
  predicate Tail(sec: MemorySection, rest: MemorySection) {
    && sec.start <= rest.start && rest.start + rest.size == sec.start + sec.size
    && rest.offset - rest.start == sec.offset - sec.start && rest.mr == sec.mr
  }

  ghost predicate EdgesOpen(d: State, sp: nat, sec: MemorySection) {
    && sp < |d.tree.roots|
    && forall pg: nat | pg < Pages(d.tree.levels) && Touches(d.page, sec, pg) && !WholePage(d.page, sec, pg) ::
         d.Open(sp, pg)
  }

  /** Only pages that the section touches, in its own space, may be mapped differently. */
  ghost predicate OnlyTouched(d0: State, d: State, sp: nat, sec: MemorySection) {
    && d.page == d0.page && d.tree.levels == d0.tree.levels && |d.tree.roots| == |d0.tree.roots|
    && d0.sections <= d.sections
    && forall q: nat, pg: nat {:trigger d.tree.At(q, pg)} |
         q < |d0.tree.roots| && pg < Pages(d0.tree.levels) && !(q == sp && Touches(d0.page, sec, pg)) ::
         d.tree.At(q, pg) == d0.tree.At(q, pg)
  }

  /** Section `sec` has been mapped up to where `rest` begins. */
  ghost predicate Progress(d0: State, d: State, sp: nat, ram: set<RegionId>, sec: MemorySection, rest: MemorySection) {
    && Tail(sec, rest)
    && LoadedTo(d0, d, sp, ram, sec, rest.start)
    && Ready(d, sp, rest) && EdgesOpen(d, sp, sec) && OnlyTouched(d0, d, sp, sec)
  }

  lemma EdgesStay(d: State, d': State, sp: nat, sec: MemorySection, from: int, to: int)
    requires EdgesOpen(d, sp, sec) && PagesKept(d, d', sp, from, to)
    requires forall pg: nat | from <= pg < to && pg < Pages(d.tree.levels) && !WholePage(d.page, sec, pg) ::
      d'.Open(sp, pg)
    ensures EdgesOpen(d', sp, sec)
  {
    forall pg: nat | pg < Pages(d'.tree.levels) && Touches(d'.page, sec, pg) && !WholePage(d'.page, sec, pg)
      ensures d'.Open(sp, pg)
    {
      if !(from <= pg < to) {
        assert d.Open(sp, pg);
        assert d'.tree.At(sp, pg) == d.tree.At(sp, pg);
      }
    }
  }

  lemma TouchedStay(d0: State, d: State, d': State, sp: nat, sec: MemorySection, from: int, to: int)
    requires OnlyTouched(d0, d, sp, sec) && PagesKept(d, d', sp, from, to)
    requires forall pg: nat | from <= pg < to && pg < Pages(d.tree.levels) :: Touches(d.page, sec, pg)
    ensures OnlyTouched(d0, d', sp, sec)
  {
    forall q: nat, pg: nat {:trigger d'.tree.At(q, pg)} |
      q < |d0.tree.roots| && pg < Pages(d0.tree.levels) && !(q == sp && Touches(d0.page, sec, pg))
      ensures d'.tree.At(q, pg) == d0.tree.At(q, pg)
    {
      assert d.tree.At(q, pg) == d0.tree.At(q, pg);
    }
  }

  /** A piece that lies in one page which the section does not map as a whole. */
  ghost predicate SubPieceOf(page: nat, sec: MemorySection, rest: MemorySection, piece: MemorySection) {
    && page > 0 && Tail(sec, rest) && piece == rest.(size := piece.size) && piece.size <= rest.size && rest.size > 0
    && rest.start % page + piece.size <= page
    && (!InStep(page, sec) || !WholePage(page, sec, rest.start / page))
    && !WholePage(page, Advance(rest, piece.size), rest.start / page)
  }

  lemma SubPieceMapped(d0: State, d: State, d': State, sp: nat, ram: set<RegionId>,
                       sec: MemorySection, rest: MemorySection, piece: MemorySection)
    requires Progress(d0, d, sp, ram, sec, rest) && SubPieceOf(d.page, sec, rest, piece)
    requires Mapped(d, d', sp, piece, Retag(ram, piece.mr)) && d'.Open(sp, rest.start / d.page)
    requires PagesKept(d, d', sp, rest.start / d.page, rest.start / d.page + 1)
    ensures Progress(d0, d', sp, ram, sec, Advance(rest, piece.size))
  {
    hide Tree.At, Tree.Valid, State.Valid, State.Answer, State.Open, InStep;
    var pg := rest.start / d.page;
    DivBounds(rest.start, d.page);
    assert Touches(d.page, sec, pg);
    forall x: nat | piece.start <= x < piece.start + piece.size
      ensures PieceTarget(d0.page, ram, sec, x) == Retag(ram, sec.mr)
    {
      DivIs(x, d.page, pg);
    }
    LoadedNext(d0, d, d', sp, ram, sec, piece, Retag(ram, sec.mr));
    StillReady(d, d', sp, rest, Advance(rest, piece.size), pg, pg + 1);
    EdgesStay(d, d', sp, sec, pg, pg + 1);
    TouchedStay(d0, d, d', sp, sec, pg, pg + 1);
  }

  lemma WholePieceMapped(d0: State, d: State, d': State, sp: nat, ram: set<RegionId>,
                         sec: MemorySection, rest: MemorySection, piece: MemorySection)
    requires Progress(d0, d, sp, ram, sec, rest) && d.page > 0 && InStep(d.page, sec)
    requires piece == rest.(size := piece.size) && piece.size <= rest.size
    requires rest.start % d.page == 0 && piece.size % d.page == 0
    requires Mapped(d, d', sp, piece, piece.mr)
    requires PagesKept(d, d', sp, piece.start / d.page, (piece.start + piece.size) / d.page)
    ensures Progress(d0, d', sp, ram, sec, Advance(rest, piece.size))
  {
    hide Tree.At, Tree.Valid, State.Valid, State.Answer, State.Open, InStep;
    var a, b := piece.start / d.page, (piece.start + piece.size) / d.page;
    forall pg: nat | a <= pg < b
      ensures WholePage(d.page, sec, pg) && Touches(d.page, sec, pg)
      ensures !Touches(d.page, Advance(rest, piece.size), pg) && !WholePage(d.page, Advance(rest, piece.size), pg)
    {
      WholePages(d.page, piece.start, piece.size, pg);
    }
    forall x: nat | piece.start <= x < piece.start + piece.size
      ensures PieceTarget(d0.page, ram, sec, x) == sec.mr
    {
      DivMonotone(piece.start, x, d.page);
      BelowEnd(d.page, piece.start, piece.size, x);
    }
    LoadedNext(d0, d, d', sp, ram, sec, piece, sec.mr);
    StillReady(d, d', sp, rest, Advance(rest, piece.size), a, b);
    EdgesStay(d, d', sp, sec, a, b);
    TouchedStay(d0, d, d', sp, sec, a, b);
  }

  lemma WholePages(page: nat, start: nat, size: nat, pg: nat)
    requires page > 0 && start % page == 0 && size % page == 0
    requires start / page <= pg < (start + size) / page
    ensures start <= pg * page && pg * page + page <= start + size
  {
    DivBounds(start, page);
    DivBounds(start + size, page);
    WithinPages(pg, start / page, (start + size) / page, page);
  }

  lemma BelowEnd(page: nat, start: nat, size: nat, x: nat)
    requires page > 0 && start % page == 0 && size % page == 0 && start <= x < start + size
    ensures x / page < (start + size) / page
  {
    PageCount(start, size, page);
    DivBounds(start, page);
    DivBounds(size, page);
    InPages(x, page, start / page, size / page);
  }

  lemma WithinPages(pg: nat, a: nat, b: nat, page: nat)
    requires a <= pg < b && page > 0
    ensures a * page <= pg * page && pg * page + page <= b * page
  {
    if a < pg {
      MulLess(a, pg, page);
    }
    MulLess(pg, b, page);
  }

  // Room for what loading a section may allocate.

  /** An upper bound on the pieces a section is cut into. */
  function Pieces(page: nat, sec: MemorySection): nat
    requires page > 0
  {
    2 + if InStep(page, sec) then 1 else sec.size / page
  }

  ghost predicate Room(sections: nat, nodes: nat, levels: nat, pieces: nat)
    requires levels > 0
  {
    sections + 3 * pieces <= SECTION_LIMIT && nodes + Times(pieces, 2 * levels - 1) <= NODE_NIL
  }

  lemma RoomForOne(sections: nat, nodes: nat, levels: nat, pieces: nat)
    requires levels > 0
    ensures pieces > 0 && Room(sections, nodes, levels, pieces) ==>
      sections + 3 <= SECTION_LIMIT && nodes + 2 * levels - 1 <= NODE_NIL
  {
    hide Times;
    if pieces > 0 {
      TimesOneMore(pieces - 1, 2 * levels - 1);
    }
  }

  lemma RoomAfterOne(sections: nat, nodes: nat, sections': nat, nodes': nat, levels: nat, pieces: nat)
    requires levels > 0 && sections' <= sections + 3 && nodes' <= nodes + 2 * levels - 1
    ensures pieces > 0 && Room(sections, nodes, levels, pieces) ==> Room(sections', nodes', levels, pieces - 1)
  {
    hide Times;
    if pieces > 0 {
      TimesOneMore(pieces - 1, 2 * levels - 1);
    }
  }

  lemma RoomShrinks(sections: nat, nodes: nat, levels: nat, pieces: nat, pieces': nat)
    requires levels > 0 && pieces' <= pieces && Room(sections, nodes, levels, pieces)
    ensures Room(sections, nodes, levels, pieces')
  {
    hide Times;
    TimesMonotone(pieces', pieces, 2 * levels - 1);
  }

  ghost function OneLess(left: nat): nat {
    if left > 0 then left - 1 else 0
  }

  /** Pieces still to come when `rest` of section `sec` remains. */
  function Need(page: nat, sec: MemorySection, rest: MemorySection): nat
    requires page > 0
  {
    (if rest.size > 0 then 1 else 0) + if rest.size < page then 0 else if InStep(page, sec) then 1 else rest.size / page
  }

  lemma SubPieceBasics(d: State, sp: nat, sec: MemorySection, rest: MemorySection, piece: MemorySection)
    requires d.page > 0 && Ready(d, sp, rest) && SubPieceOf(d.page, sec, rest, piece)
    requires rest.start / d.page < Pages(d.tree.levels)
    ensures d.Open(sp, rest.start / d.page) && rest.start % d.page + piece.size <= d.page
  {
    hide State.Open, State.Vacant, Pages, WholePage, InStep;
    DivBounds(rest.start, d.page);
    assert Touches(d.page, rest, rest.start / d.page);
  }

  lemma ProgressReady(d0: State, d: State, sp: nat, ram: set<RegionId>, sec: MemorySection, rest: MemorySection)
    requires Progress(d0, d, sp, ram, sec, rest)
    ensures Ready(d, sp, rest) && sp < |d.tree.roots|
  {
    hide LoadedTo, EdgesOpen, OnlyTouched;
  }

  lemma ProgressStart(d0: State, sp: nat, ram: set<RegionId>, sec: MemorySection)
    requires d0.Valid() && Ready(d0, sp, sec)
    ensures d0.page > 0 && Progress(d0, d0, sp, ram, sec, sec)
  {
  }

  lemma ProgressDone(d0: State, d: State, sp: nat, ram: set<RegionId>, sec: MemorySection, rest: MemorySection)
    requires Progress(d0, d, sp, ram, sec, rest) && rest.size == 0
    ensures d.Valid() && LoadedTo(d0, d, sp, ram, sec, sec.start + sec.size)
    ensures EdgesOpen(d, sp, sec) && OnlyTouched(d0, d, sp, sec)
  {
  }

  lemma AlignGap(x: nat, page: nat)
    requires page > 0
    ensures AlignUp(x, page) - x == if x % page == 0 then 0 else page - x % page
  {
    DivBounds(x, page);
    DivIs(x + page - 1, page, if x % page == 0 then x / page else x / page + 1);
  }

  lemma NextAligned(page: nat, x: nat)
    requires page > 0
    ensures x % page != 0 ==> (x + (page - x % page)) % page == 0
  {
    DivBounds(x, page);
    var q := x / page;
    assert (q + 1) * page == q * page + page;
    if x % page != 0 {
      DivIs(x + (page - x % page), page, q + 1);
    }
  }

  lemma HeadGap(page: nat, start: nat, size: nat, n: int)
    requires page > 0 && size > 0 && (start % page != 0 || size < page) && n == Min(AlignUp(start, page) - start, size)
    ensures 0 <= n <= size && start % page + n <= page && (n == 0 ==> start % page == 0 && size < page)
    ensures n < size ==> (start + n) % page == 0
  {
    hide AlignUp;
    DivBounds(start, page);
    AlignGap(start, page);
    NextAligned(page, start);
  }

  lemma NeedAfter(page: nat, sec: MemorySection, n: nat)
    requires page > 0 && n <= sec.size
    ensures Need(page, sec, Advance(sec, n)) + 1 <= Pieces(page, sec)
  {
    hide InStep;
    DivMonotone(sec.size - n, sec.size, page);
    DivMonotone(0, sec.size, page);
  }

  lemma HeadPiece(page: nat, sec: MemorySection, n: int)
    requires page > 0 && sec.size > 0 && (sec.start % page != 0 || sec.size < page)
    requires n == Min(AlignUp(sec.start, page) - sec.start, sec.size)
    ensures 0 <= n <= sec.size && SubPieceOf(page, sec, sec, sec.(size := n)) && Tail(sec, Advance(sec, n))
    ensures n < sec.size ==> (sec.start + n) % page == 0
    ensures Need(page, sec, Advance(sec, n)) + 1 <= Pieces(page, sec)
  {
    hide InStep, AlignUp, Need, Pieces;
    HeadGap(page, sec.start, sec.size, n);
    NeedAfter(page, sec, n);
    DivBounds(sec.start, page);
  }

  lemma OutOfStep(page: nat, start: nat, offset: int)
    requires page > 0 && start % page == 0 && offset % page != 0
    ensures (offset - start) % page != 0
  {
    DivBounds(start, page);
    DivBounds(offset - start, page);
    var a, b := start / page, (offset - start) / page;
    if (offset - start) % page == 0 {
      assert (a + b) * page == a * page + b * page;
      DivIs(offset, page, a + b);
    }
  }

  lemma OnePageLess(page: nat, n: nat)
    requires page > 0 && n >= page
    ensures (n - page) / page == n / page - 1
  {
    DivBounds(n, page);
    var c := n / page;
    assert (c - 1) * page == c * page - page;
    DivIs(n - page, page, c - 1);
  }

  lemma OnePageOn(page: nat, x: nat)
    requires page > 0 && x % page == 0
    ensures (x + page) % page == 0
  {
    DivBounds(x, page);
    var a := x / page;
    assert (a + 1) * page == a * page + page;
    DivIs(x + page, page, a + 1);
  }

  lemma NotInStep(page: nat, sec: MemorySection, rest: MemorySection)
    requires page > 0 && Tail(sec, rest) && rest.start % page == 0 && rest.offset % page != 0
    ensures !InStep(page, sec)
  {
    OutOfStep(page, rest.start, rest.offset);
  }

  lemma NeedPage(page: nat, sec: MemorySection, rest: MemorySection)
    requires page > 0 && rest.size >= page && !InStep(page, sec)
    ensures Need(page, sec, Advance(rest, page)) + 1 <= Need(page, sec, rest)
  {
    hide InStep;
    OnePageLess(page, rest.size);
    DivMonotone(page, rest.size, page);
    DivIs(page, page, 1);
  }

  lemma MiddlePiece(page: nat, sec: MemorySection, rest: MemorySection)
    requires page > 0 && Tail(sec, rest) && rest.size >= page && rest.start % page == 0 && rest.offset % page != 0
    ensures SubPieceOf(page, sec, rest, rest.(size := page)) && Tail(sec, Advance(rest, page))
    ensures (rest.start + page) % page == 0
    ensures Need(page, sec, Advance(rest, page)) + 1 <= Need(page, sec, rest)
  {
    hide InStep, Need;
    NotInStep(page, sec, rest);
    OnePageOn(page, rest.start);
    NeedPage(page, sec, rest);
    DivBounds(rest.start, page);
  }

  lemma TailPiece(page: nat, sec: MemorySection, rest: MemorySection)
    requires page > 0 && Tail(sec, rest) && 0 < rest.size < page && rest.start % page == 0
    ensures SubPieceOf(page, sec, rest, rest) && Need(page, sec, rest) == 1 && Tail(sec, Advance(rest, rest.size))
  {
    hide InStep;
    DivBounds(rest.start, page);
  }

  lemma WholeEnd(d: State, sec: MemorySection, rest: MemorySection, n: nat)
    requires d.page > 0 && Tail(sec, rest) && rest.size >= d.page && rest.start % d.page == 0
    requires rest.offset % d.page == 0
    requires n == rest.size - rest.size % d.page && d.InSpan(sec.start + sec.size - 1)
    ensures 0 < n <= rest.size && n % d.page == 0 && InStep(d.page, sec)
    ensures (rest.start + n) / d.page <= Pages(d.tree.levels) && (rest.start + n) % d.page == 0
    ensures rest.size - n < d.page && Tail(sec, Advance(rest, n))
    ensures Need(d.page, sec, Advance(rest, n)) + 1 <= Need(d.page, sec, rest)
  {
    var page := d.page;
    DivBounds(rest.size, page);
    DivBounds(rest.start, page);
    DivBounds(rest.offset, page);
    var q := rest.size / page;
    DivIs(n, page, q);
    var a, b := rest.start / page, rest.offset / page;
    assert (b - a) * page == b * page - a * page;
    DivIs(rest.offset - rest.start, page, b - a);
    assert (a + q) * page == a * page + q * page;
    DivIs(rest.start + n, page, a + q);
    assert (a + q - 1) * page == (a + q) * page - page;
    DivIs(rest.start + n - 1, page, a + q - 1);
    DivMonotone(rest.start + n - 1, sec.start + sec.size - 1, page);
  }

  lemma NeedStart(page: nat, sec: MemorySection)
    requires page > 0
    ensures Need(page, sec, sec) <= Pieces(page, sec) && Tail(sec, sec)
  {
  }

  lemma SpanPage(d: State, x: nat, y: nat)
    requires d.page > 0 && d.InSpan(y) && x <= y
    ensures x / d.page < Pages(d.tree.levels)
  {
    DivMonotone(x, y, d.page);
  }

  lemma TailBounds(sec: MemorySection, rest: MemorySection)
    requires Tail(sec, rest)
    ensures sec.start <= rest.start && rest.start + rest.size == sec.start + sec.size && rest.mr == sec.mr
  {
  }

  // Loading a whole view.

  function SectionFor(fr: FlatRange): MemorySection
    requires fr.addr.start >= 0 && fr.addr.size >= 0
  {
    MemorySection(Mr(fr.mr), fr.addr.start, fr.offset, fr.addr.size)
  }

  /** Every range starts at a real address, and ends inside the span of the page map. */
  ghost predicate Loadable(d: State, v: seq<FlatRange>) {
    forall i | 0 <= i < |v| :: v[i].addr.start >= 0 && v[i].addr.size > 0 && d.InSpan(v[i].addr.End() - 1)
  }

  predicate RangeLoadable(page: nat, levels: nat, fr: FlatRange) {
    fr.addr.start >= 0 && fr.addr.size > 0 && page > 0 && (fr.addr.End() - 1) / page < Pages(levels)
  }

  lemma LoadableAt(d: State, v: seq<FlatRange>, k: nat)
    requires k < |v|
    ensures Loadable(d, v) ==> RangeLoadable(d.page, d.tree.levels, v[k])
    ensures RangeLoadable(d.page, d.tree.levels, v[k]) ==>
      v[k].addr.start >= 0 && v[k].addr.size > 0 && d.InSpan(v[k].addr.End() - 1)
  {
  }

  /** What an access reaches once a view has been loaded. */
  ghost function Expected(page: nat, ram: set<RegionId>, v: seq<FlatRange>, x: nat): Reached
    requires page > 0
  {
    if v == [] then Reached(Unassigned, x)
    else if v[0].addr.Contains(x) && v[0].addr.start >= 0 then
      Reached(PieceTarget(page, ram, SectionFor(v[0]), x), v[0].OwnerAt(x).offset)
    else Expected(page, ram, v[1..], x)
  }

  function TotalPieces(page: nat, v: seq<FlatRange>): nat
    requires page > 0
  {
    if v == [] then 0
    else
      var first := if v[0].addr.start >= 0 && v[0].addr.size >= 0 then Pieces(page, SectionFor(v[0])) else 0;
      first + TotalPieces(page, v[1..])
  }

  lemma {:induction false} ExpectedAt(page: nat, ram: set<RegionId>, v: seq<FlatRange>, i: nat, x: nat)
    requires page > 0 && Sorted(v) && i < |v| && v[i].addr.Contains(x) && v[i].addr.start >= 0
    ensures Expected(page, ram, v, x) ==
            Reached(PieceTarget(page, ram, SectionFor(v[i]), x), v[i].OwnerAt(x).offset)
  {
    hide PieceTarget;
    if i > 0 {
      assert v[0].addr.End() <= v[i].addr.start;
      ExpectedAt(page, ram, v[1..], i - 1, x);
    }
  }

  lemma {:induction false} ExpectedNone(page: nat, ram: set<RegionId>, v: seq<FlatRange>, x: nat)
    requires page > 0 && Lookup(v, x).None?
    ensures Expected(page, ram, v, x) == Reached(Unassigned, x)
  {
    if v != [] {
      ExpectedNone(page, ram, v[1..], x);
    }
  }

  /** The view shows the whole page of `x` in step with the region that answers at `x`. */
  ghost predicate PageIn(page: nat, v: seq<FlatRange>, x: nat, o: Owner)
    requires page > 0
  {
    && (o.offset - x) % page == 0
    && forall y: int | x / page * page <= y < x / page * page + page ::
         Lookup(v, y) == Some(o.(offset := o.offset + (y - x)))
  }

  lemma NextRange(v: seq<FlatRange>, i: nat, j: nat, y: int)
    requires Sorted(v) && i < |v| && j < |v| && v[i].addr.Contains(y) && v[j].addr.Contains(y + 1) && i != j
    ensures j == i + 1 && v[i].addr.End() == v[j].addr.start
  {
    assert v[j].addr.End() > v[i].addr.start;
    assert v[i + 1].addr.size > 0;
  }

  /** Neighbouring addresses with one owner lie in one range of a simplified view. */
  lemma OneRange(v: seq<FlatRange>, i: nat, j: nat, y: int)
    requires Sorted(v) && Simplified(v) && i < |v| && j < |v| && v[i].addr.Contains(y) && v[j].addr.Contains(y + 1)
    requires v[j].OwnerAt(y + 1) == v[i].OwnerAt(y).(offset := v[i].OwnerAt(y).offset + 1)
    ensures i == j
  {
    hide Sorted;
    if i != j {
      NextRange(v, i, j, y);
    }
  }

  lemma PageStartsInside(page: nat, v: seq<FlatRange>, i: nat, x: nat)
    requires page > 0 && Sorted(v) && Simplified(v) && i < |v| && v[i].addr.Contains(x)
    requires PageIn(page, v, x, v[i].OwnerAt(x))
    ensures v[i].addr.start <= x / page * page
  {
    DivBounds(x, page);
    var start := v[i].addr.start;
    if start > x / page * page {
      assert Lookup(v, start - 1) == Some(v[i].OwnerAt(start - 1));
      var j := LookupHit(v, start - 1);
      OneRange(v, j, i, start - 1);
    }
  }

  lemma PageEndsInside(page: nat, v: seq<FlatRange>, i: nat, x: nat)
    requires page > 0 && Sorted(v) && Simplified(v) && i < |v| && v[i].addr.Contains(x)
    requires PageIn(page, v, x, v[i].OwnerAt(x))
    ensures x / page * page + page <= v[i].addr.End()
  {
    DivBounds(x, page);
    var end := v[i].addr.End();
    if end < x / page * page + page {
      assert Lookup(v, end) == Some(v[i].OwnerAt(end));
      var j := LookupHit(v, end);
      OneRange(v, i, j, end - 1);
    }
  }

  /** A range of a simplified view fills a page in step exactly if the view shows that page as one piece of RAM. */
  lemma WholeIsShown(page: nat, v: seq<FlatRange>, i: nat, x: nat)
    requires page > 0 && Sorted(v) && Simplified(v) && i < |v| && v[i].addr.Contains(x) && v[i].addr.start >= 0
    ensures InStep(page, SectionFor(v[i])) && WholePage(page, SectionFor(v[i]), x / page) <==>
            PageIn(page, v, x, v[i].OwnerAt(x))
  {
    hide Sorted, Simplified, Lookup;
    if WholePage(page, SectionFor(v[i]), x / page) {
      forall y: int | x / page * page <= y < x / page * page + page
        ensures Lookup(v, y) == Some(v[i].OwnerAt(y))
      {
        LookupAt(v, i, y);
      }
    }
    if PageIn(page, v, x, v[i].OwnerAt(x)) {
      PageStartsInside(page, v, i, x);
      PageEndsInside(page, v, i, x);
    }
  }

  /** Reaching the right place: the owner shown by the view, except that RAM is reached through the sub-page RAM
      handler exactly where its page is not shown whole and in step. */
  lemma ExpectedIsLookup(page: nat, ram: set<RegionId>, v: seq<FlatRange>, x: nat)
    requires page > 0 && Sorted(v) && Simplified(v) && forall i | 0 <= i < |v| :: v[i].addr.start >= 0
    ensures Expected(page, ram, v, x) ==
      match Lookup(v, x)
      case None => Reached(Unassigned, x)
      case Some(o) => Reached(if o.mr in ram && !PageIn(page, v, x, o) then SubpageRam else Mr(o.mr), o.offset)
  {
    hide Sorted, Simplified, Lookup, Expected, PageIn, InStep, WholePage;
    if Lookup(v, x).None? {
      ExpectedNone(page, ram, v, x);
    } else {
      var i := LookupHit(v, x);
      ExpectedAt(page, ram, v, i, x);
      WholeIsShown(page, v, i, x);
    }
  }

  lemma {:induction false} ExpectedSnoc(page: nat, ram: set<RegionId>, v: seq<FlatRange>, fr: FlatRange, x: nat)
    requires page > 0 && fr.addr.start >= 0 && fr.addr.size >= 0
    requires fr.addr.Contains(x) ==> forall i | 0 <= i < |v| :: !v[i].addr.Contains(x)
    ensures Expected(page, ram, v + [fr], x) ==
            if fr.addr.Contains(x) then Reached(PieceTarget(page, ram, SectionFor(fr), x), fr.OwnerAt(x).offset)
            else Expected(page, ram, v, x)
  {
    if v == [] {
      assert [] + [fr] == [fr] && [fr][1..] == [];
    } else {
      assert (v + [fr])[0] == v[0] && (v + [fr])[1..] == v[1..] + [fr];
      ExpectedSnoc(page, ram, v[1..], fr, x);
    }
  }

  /** The ranges `v` have been loaded over `d0`, into a space that was empty, and no other space has changed. */
  ghost predicate LoadedRanges(d0: State, d: State, sp: nat, ram: set<RegionId>, v: seq<FlatRange>) {
    && d0.Valid() && d.Valid() && d.page == d0.page && d.tree.levels == d0.tree.levels
    && |d.tree.roots| == |d0.tree.roots|
    && sp < |d0.tree.roots| && Loadable(d0, v)
    && forall q: nat, x: nat {:trigger d.Answer(q, x)} | q < |d0.tree.roots| && d0.InSpan(x) ::
         d.Answer(q, x) == if q == sp then Expected(d0.page, ram, v, x) else d0.Answer(q, x)
  }

  /** Pages no range touches are vacant, and pages no range fills can still be split. */
  ghost predicate PagesLeft(d: State, sp: nat, v: seq<FlatRange>)
  {
    && sp < |d.tree.roots| && Loadable(d, v)
    && (forall pg: nat |
          pg < Pages(d.tree.levels) && (forall i | 0 <= i < |v| :: !Touches(d.page, SectionFor(v[i]), pg)) ::
          d.Vacant(sp, pg))
    && (forall pg: nat |
          pg < Pages(d.tree.levels) && (forall i | 0 <= i < |v| :: !WholePage(d.page, SectionFor(v[i]), pg)) ::
          d.Open(sp, pg))
  }

  lemma NextIsReady(d: State, sp: nat, v: seq<FlatRange>, fr: FlatRange)
    requires d.page > 0 && PagesLeft(d, sp, v) && Sorted(v + [fr]) && fr.addr.start >= 0 && fr.addr.size > 0
    ensures Ready(d, sp, SectionFor(fr))
  {
    hide Tree.At;
    forall i | 0 <= i < |v|
      ensures v[i].addr.End() <= fr.addr.start && v[i].addr.size > 0
    {
      assert (v + [fr])[i] == v[i] && (v + [fr])[|v|] == fr;
    }
    forall pg: nat | pg < Pages(d.tree.levels) && Touches(d.page, SectionFor(fr), pg)
      ensures d.Open(sp, pg)
    {
      assert forall i | 0 <= i < |v| :: !WholePage(d.page, SectionFor(v[i]), pg);
    }
    forall pg: nat | pg < Pages(d.tree.levels) && WholePage(d.page, SectionFor(fr), pg)
      ensures d.Vacant(sp, pg)
    {
      assert forall i | 0 <= i < |v| :: !Touches(d.page, SectionFor(v[i]), pg);
    }
  }

  lemma NextPagesLeft(d: State, d': State, sp: nat, v: seq<FlatRange>, fr: FlatRange)
    requires PagesLeft(d, sp, v) && fr.addr.start >= 0 && fr.addr.size > 0 && d.InSpan(fr.addr.End() - 1)
    requires OnlyTouched(d, d', sp, SectionFor(fr)) && EdgesOpen(d', sp, SectionFor(fr))
    ensures PagesLeft(d', sp, v + [fr])
  {
    hide Tree.At;
    var w := v + [fr];
    assert w[|v|] == fr && forall i | 0 <= i < |v| :: w[i] == v[i];
    forall pg: nat | pg < Pages(d'.tree.levels) && (forall i | 0 <= i < |w| :: !Touches(d'.page, SectionFor(w[i]), pg))
      ensures d'.Vacant(sp, pg)
    {
      assert forall i | 0 <= i < |v| :: !Touches(d.page, SectionFor(v[i]), pg) by {
        assert forall i | 0 <= i < |v| :: !Touches(d.page, SectionFor(w[i]), pg);
      }
      assert !Touches(d'.page, SectionFor(w[|v|]), pg);
      assert d.Vacant(sp, pg);
      assert d'.tree.At(sp, pg) == d.tree.At(sp, pg);
    }
    forall pg: nat |
      pg < Pages(d'.tree.levels) && (forall i | 0 <= i < |w| :: !WholePage(d'.page, SectionFor(w[i]), pg))
      ensures d'.Open(sp, pg)
    {
      assert forall i | 0 <= i < |v| :: !WholePage(d.page, SectionFor(v[i]), pg) by {
        assert forall i | 0 <= i < |v| :: !WholePage(d.page, SectionFor(w[i]), pg);
      }
      assert !WholePage(d'.page, SectionFor(w[|v|]), pg);
      if !Touches(d'.page, SectionFor(fr), pg) {
        assert d.Open(sp, pg);
        assert d'.tree.At(sp, pg) == d.tree.At(sp, pg);
      }
    }
  }

  lemma NextLoaded(d0: State, d: State, d': State, sp: nat, ram: set<RegionId>, v: seq<FlatRange>, fr: FlatRange)
    requires LoadedRanges(d0, d, sp, ram, v) && Sorted(v + [fr]) && fr.addr.start >= 0 && fr.addr.size > 0
    requires d0.InSpan(fr.addr.End() - 1)
    requires LoadedTo(d, d', sp, ram, SectionFor(fr), fr.addr.End())
    ensures LoadedRanges(d0, d', sp, ram, v + [fr])
  {
    hide Tree.At, State.Valid, State.Answer, PieceTarget;
    Bounds(d0);
    var w := v + [fr];
    assert w[|v|] == fr && forall i | 0 <= i < |v| :: w[i] == v[i];
    forall q: nat, x: nat {:trigger d'.Answer(q, x)} | q < |d0.tree.roots| && d0.InSpan(x)
      ensures d'.Answer(q, x) == if q == sp then Expected(d0.page, ram, w, x) else d0.Answer(q, x)
    {
      assert d.Answer(q, x) == d.Answer(q, x);
      forall i | 0 <= i < |v|
        ensures fr.addr.Contains(x) ==> !v[i].addr.Contains(x)
      {
        assert w[i].addr.End() <= w[|v|].addr.start;
      }
      ExpectedSnoc(d0.page, ram, v, fr, x);
    }
  }

  lemma LoadStart(d: State, sp: nat, ram: set<RegionId>)
    requires d.Valid() && sp < |d.tree.roots|
    requires forall pg: nat | pg < Pages(d.tree.levels) :: d.Vacant(sp, pg)
    ensures d.page > 0 && LoadedRanges(d, d, sp, ram, []) && PagesLeft(d, sp, []) && OthersKept(d, d, sp)
  {
    hide Tree.Valid, Tree.At, State.Valid, State.Answer, Pages;
    Bounds(d);
    forall x: nat | d.InSpan(x)
      ensures d.Answer(sp, x) == Reached(Unassigned, x)
    {
      VacantAnswers(d, sp, x);
    }
  }

  lemma VacantAnswers(d: State, sp: nat, x: nat)
    requires d.page > 0 && sp < |d.tree.roots| && d.Vacant(sp, x / d.page) && d.InSpan(x) && d.Valid()
    ensures d.Answer(sp, x) == Reached(Unassigned, x)
  {
    hide Tree.Valid, Tree.At;
  }

  lemma LoadNext(d0: State, d: State, sp: nat, ram: set<RegionId>, v: seq<FlatRange>, k: nat)
    requires k < |v| && Sorted(v) && RangeLoadable(d0.page, d0.tree.levels, v[k])
    requires LoadedRanges(d0, d, sp, ram, v[..k]) && PagesLeft(d, sp, v[..k])
    ensures Sorted(v[..k] + [v[k]]) && v[k].addr.start >= 0 && v[k].addr.size > 0
    ensures d0.InSpan(v[k].addr.End() - 1) && d.InSpan(v[k].addr.End() - 1)
    ensures Ready(d, sp, SectionFor(v[k]))
  {
    assert v[..k] + [v[k]] == v[..k + 1];
    NextIsReady(d, sp, v[..k], v[k]);
  }

  lemma PiecesNext(page: nat, v: seq<FlatRange>)
    requires page > 0 && v != [] && v[0].addr.start >= 0 && v[0].addr.size > 0
    ensures TotalPieces(page, v) == Pieces(page, SectionFor(v[0])) + TotalPieces(page, v[1..])
  {
  }

  lemma NoPieces(page: nat)
    requires page > 0
    ensures TotalPieces(page, []) == 0
  {
  }

  ghost predicate OthersKept(d0: State, d: State, sp: nat) {
    && d.page == d0.page && d.tree.levels == d0.tree.levels && |d.tree.roots| == |d0.tree.roots|
    && forall q: nat, pg: nat {:trigger d.tree.At(q, pg)} |
         q < |d0.tree.roots| && q != sp && pg < Pages(d0.tree.levels) ::
         d.tree.At(q, pg) == d0.tree.At(q, pg)
  }

  lemma NextOthers(d0: State, d: State, d': State, sp: nat, sec: MemorySection)
    requires OthersKept(d0, d, sp) && OnlyTouched(d, d', sp, sec)
    ensures OthersKept(d0, d', sp)
  {
    forall q: nat, pg: nat {:trigger d'.tree.At(q, pg)} | q < |d0.tree.roots| && q != sp && pg < Pages(d0.tree.levels)
      ensures d'.tree.At(q, pg) == d0.tree.At(q, pg)
    {
      assert d.tree.At(q, pg) == d0.tree.At(q, pg);
    }
  }

  class PhysDispatch {
    const page: nat
    const ram: set<RegionId>
    const pages: PhysPageMap
    var sections: seq<MemorySection>
    var tables: seq<Subpage>

    ghost function S(): State
      reads this, pages
    {
      State(pages.T(), page, sections, tables)
    }

    ghost predicate Valid()
      reads this, pages
    {
      S().Valid() && page <= 0xffff_ffff && |sections| <= SECTION_LIMIT
    }

    /** A section or node index no longer fits the 15 bits of an entry. */
    ghost predicate Full()
      reads this, pages
    {
      |sections| >= SECTION_LIMIT || |pages.nodes| >= NODE_NIL
    }

    constructor (page: nat, ram: set<RegionId>, levels: nat, spaces: nat)
      requires 0 < page <= 0xffff_ffff && levels > 0
      ensures Valid() && fresh(this) && fresh(pages)
      ensures this.page == page && this.ram == ram && pages.levels == levels && |pages.roots| == spaces
    {
      this.page := page;
      this.ram := ram;
      pages := new PhysPageMap(levels, spaces);
      sections := FIXED_SECTIONS;
      tables := [];
    }

    /** The begin callbacks: every map emptied, then the four fixed sections set up again. */
    method Begin()
      requires Valid()
      modifies this, pages
      ensures Valid() && |pages.roots| == old(|pages.roots|) && pages.nodes == [] && |sections| == 4
      ensures forall sp: nat, pg: nat | sp < |pages.roots| && pg < Pages(pages.levels) :: S().Vacant(sp, pg)
      ensures forall sp: nat, x: nat | sp < |pages.roots| && S().InSpan(x) ::
        S().Answer(sp, x) == Reached(Unassigned, x)
    {
      pages.Begin();
      tables := [];
      sections := FIXED_SECTIONS;
      assert forall sp: nat, pg: nat | sp < |pages.roots| && pg < Pages(pages.levels) :: S().PageOk(sp, pg);
    }

    /** phys_section_add.  It is not `ok` when the index would not fit an entry. */
    method SectionAdd(sec: MemorySection) returns (ok: bool, i: nat)
      requires Valid()
      modifies this
      ensures ok <==> old(|sections|) < SECTION_LIMIT
      ensures i == old(|sections|) && tables == old(tables)
      ensures sections == if ok then old(sections) + [sec] else old(sections)
      ensures Valid() && SameAnswers(old(S()), S())
    {
      i := |sections|;
      ok := i < SECTION_LIMIT;
      if ok {
        AppendSection(S(), sec);
        sections := sections + [sec];
      }
    }

    /** subpage_register: send the bytes [start, end] of table `k` to section `i`, retagged if it is RAM. */
    method SubpageRegister(k: nat, start: nat, end: nat, i: nat) returns (ok: bool)
      requires Valid() && k < |tables| && i < |sections|
      modifies this
      ensures |sections| <= SECTION_LIMIT && |sections| <= old(|sections|) + 1
      ensures !ok ==> |sections| == old(|sections|) == SECTION_LIMIT
      ensures if start >= page || end >= page then S() == old(S())
              else ok ==> Entered(old(S()), S(), k, start, end + 1, i, ram)
    {
      if start >= page || end >= page {
        return true;
      }
      assert S().TableOk(k);
      var section := i;
      if sections[section].mr.Mr? && sections[section].mr.id in ram {
        var retagged := sections[section].(mr := SubpageRam);
        if |sections| >= SECTION_LIMIT {
          return false;
        }
        section := |sections|;
        sections := sections + [retagged];
      }
      ghost var table0 := tables[k].table;
      var table := tables[k].table;
      var idx := start;
      while idx <= end
        invariant start <= idx && (idx <= end + 1 || idx == start) && table == Filled(table0, start, idx, section)
      {
        table := table[idx := section];
        idx := idx + 1;
      }
      assert table == Filled(table0, start, end + 1, section);
      tables := tables[k := tables[k].(table := table)];
      ok := true;
    }

    /** The first half of register_subpage: the sub-page table of a page, made if the page is vacant. */
    method TableFor(sp: nat, pg: nat) returns (ok: bool, k: nat)
      requires Valid() && sp < |pages.roots| && pg < Pages(pages.levels) && S().Open(sp, pg)
      modifies this, pages
      ensures ok ==> Valid() && SameAnswers(old(S()), S()) && PagesKept(old(S()), S(), sp, pg, pg + 1)
      ensures ok ==> k < |tables| && S().tree.At(sp, pg).section < |sections|
      ensures ok ==> sections[S().tree.At(sp, pg).section].mr == SubpageTable(k)
      ensures ok ==> |sections| <= old(|sections|) + 1 && |pages.nodes| <= old(|pages.nodes|) + 2 * pages.levels - 1
      ensures !ok ==> Full()
      ensures old(|sections|) < SECTION_LIMIT && old(|pages.nodes|) + 2 * pages.levels - 1 <= NODE_NIL ==> ok
    {
      hide Tree.Valid, Tree.At, State.Answer, State.SectionAt, State.Valid;
      ghost var d := S();
      Bounds(d);
      PageIsOk(d, sp, pg);
      var existing := pages.PageFind(sp, pg);
      assert sections[existing].mr.SubpageTable? || sections[existing].mr == Unassigned;
      if !sections[existing].mr.SubpageTable? {
        k := |tables|;
        var i := |sections|;
        if i >= SECTION_LIMIT {
          return false, k;
        }
        tables := tables + [Subpage(sp, pg * page, seq(page, _ => UNASSIGNED))];
        sections := sections + [MemorySection(SubpageTable(k), pg * page, 0, page)];
        ok := pages.PageSet(sp, pg, 1, i);
        if !ok {
          return;
        }
        SplitKeeps(d, sp, pg, pages.T());
        assert S() == SplitPage(d, sp, pg, pages.T());
        SameIsValid(d, S());
      } else {
        SameRefl(d, sp, pg);
        ok, k := true, sections[existing].mr.index;
      }
    }

    /** register_subpage: map a section that lies inside one page. */
    method RegisterSubpage(sp: nat, sec: MemorySection) returns (ok: bool)
      requires Valid() && page > 0 && sp < |pages.roots| && Quot(sec.start, page) < Pages(pages.levels)
      requires S().Open(sp, Quot(sec.start, page))
      requires sec.mr.Mr? && Rem(sec.start, page) + sec.size <= page
      modifies this, pages
      ensures ok ==> Valid() && Mapped(old(S()), S(), sp, sec, Retag(ram, sec.mr))
      ensures ok ==> PagesKept(old(S()), S(), sp, Quot(sec.start, page), Quot(sec.start, page) + 1)
      ensures ok ==> S().Open(sp, Quot(sec.start, page))
      ensures ok ==> |sections| <= old(|sections|) + 3 && |pages.nodes| <= old(|pages.nodes|) + 2 * pages.levels - 1
      ensures !ok ==> Full()
      ensures old(|sections|) + 3 <= SECTION_LIMIT && old(|pages.nodes|) + 2 * pages.levels - 1 <= NODE_NIL ==> ok
    {
      hide Tree.Valid, Tree.At, State.Answer, State.SectionAt, State.Valid, State.PageOk, State.Open, Mapped,
        PagesKept, SameAnswers, Pages, Quot, Rem;
      ghost var d0 := S();
      Bounds(d0);
      var k;
      ok, k := TableFor(sp, Quot(sec.start, page));
      if ok {
        SameSizes(d0, S());
        ok := FillSubpage(d0, sp, k, sec);
      }
    }

    /** The second half of register_subpage: the section goes into table `k`, the table of its page. */
    method FillSubpage(ghost d0: State, sp: nat, k: nat, sec: MemorySection) returns (ok: bool)
      requires page > 0 && Valid() && SameAnswers(d0, S())
      requires PagesKept(d0, S(), sp, Quot(sec.start, page), Quot(sec.start, page) + 1)
      requires sp < |pages.roots| && Quot(sec.start, page) < Pages(pages.levels) && k < |tables|
      requires S().tree.At(sp, Quot(sec.start, page)).section < |sections|
      requires sections[S().tree.At(sp, Quot(sec.start, page)).section].mr == SubpageTable(k)
      requires sec.mr.Mr? && Rem(sec.start, page) + sec.size <= page
      modifies this
      ensures ok ==> Valid() && Mapped(d0, S(), sp, sec, Retag(ram, sec.mr))
      ensures ok ==> PagesKept(d0, S(), sp, Quot(sec.start, page), Quot(sec.start, page) + 1)
      ensures ok ==> S().Open(sp, Quot(sec.start, page)) && |sections| <= old(|sections|) + 2
      ensures !ok ==> |sections| >= SECTION_LIMIT
      ensures old(|sections|) + 2 <= SECTION_LIMIT ==> ok
    {
      hide Tree.Valid, Tree.At, State.Answer, State.SectionAt, State.Valid, State.PageOk, State.Open, Mapped,
        PagesKept, SameAnswers, Pages, Quot, Rem, Retag, Entered;
      var pg := Quot(sec.start, page);
      var start := Rem(sec.start, page);
      ghost var d1 := S();
      var i;
      ok, i := SectionAdd(sec);
      if !ok {
        return;
      }
      ghost var d2 := S();
      // end = start + size - 1 in 32-bit unsigned arithmetic
      var end := if start + sec.size == 0 then 0xffff_ffff else start + sec.size - 1;
      ok := SubpageRegister(k, start, end, i);
      if !ok {
        return;
      }
      SameSizes(d0, d1);
      RegisteredMaps(d0, d1, d2, S(), sp, pg, k, sec, ram);
      MappedValid(d0, S(), sp, sec, Retag(ram, sec.mr));
    }

    /** register_multipage: map whole pages. */
    method RegisterMultipage(sp: nat, sec: MemorySection) returns (ok: bool)
      requires Valid() && sp < |pages.roots| && sec.mr.Mr? && sec.size > 0
      requires sec.start % page == 0 && sec.size % page == 0 && (sec.start + sec.size) / page <= Pages(pages.levels)
      requires forall pg: nat | sec.start / page <= pg < (sec.start + sec.size) / page :: S().Vacant(sp, pg)
      modifies this, pages
      ensures ok ==> Valid() && Mapped(old(S()), S(), sp, sec, sec.mr)
      ensures ok ==> PagesKept(old(S()), S(), sp, sec.start / page, (sec.start + sec.size) / page)
      ensures ok ==> |sections| == old(|sections|) + 1 && |pages.nodes| <= old(|pages.nodes|) + 2 * pages.levels - 1
      ensures !ok ==> Full()
      ensures old(|sections|) < SECTION_LIMIT && old(|pages.nodes|) + 2 * pages.levels - 1 <= NODE_NIL ==> ok
    {
      hide Tree.Valid, Tree.At, State.Answer, State.SectionAt;
      ghost var d := S();
      var i := |sections|;
      if i >= SECTION_LIMIT {
        return false;
      }
      sections := sections + [sec];
      DivBounds(sec.start, page);
      DivBounds(sec.size, page);
      PageCount(sec.start, sec.size, page);
      forall pg: nat | sec.start / page <= pg < sec.start / page + sec.size / page
        ensures !pages.T().At(sp, pg).big
      {
        assert d.Vacant(sp, pg);
      }
      ok := pages.PageSet(sp, sec.start / page, sec.size / page, i);
      if !ok {
        return;
      }
      PagesMap(d, sp, sec.start / page, sec.size / page, sec, pages.T());
      assert S() == MapPages(d, sec, pages.T());
    }

    /** Map a piece that must go through a sub-page table. */
    method AddSub(ghost d0: State, sp: nat, ghost sec: MemorySection, rest: MemorySection, n: nat, ghost left: nat)
      returns (ok: bool)
      requires Valid() && n <= rest.size && SubPieceOf(page, sec, rest, rest.(size := n)) && rest.mr.Mr?
      requires Progress(d0, S(), sp, ram, sec, rest) && rest.start / page < Pages(pages.levels)
      requires pages.levels > 0
      modifies this, pages
      ensures ok ==> Valid() && Progress(d0, S(), sp, ram, sec, Advance(rest, n))
      ensures !ok ==> Full()
      ensures left > 0 && old(Room(|sections|, |pages.nodes|, pages.levels, left)) ==>
        ok && Room(|sections|, |pages.nodes|, pages.levels, left - 1)
    {
      hide Tree.Valid, Tree.At, State.Valid, State.Answer, SubPieceOf, Room;
      ghost var d := S();
      Bounds(d);
      ProgressReady(d0, d, sp, ram, sec, rest);
      SubPieceBasics(d, sp, sec, rest, rest.(size := n));
      RoomForOne(|sections|, |pages.nodes|, pages.levels, left);
      ok := RegisterSubpage(sp, rest.(size := n));
      if ok {
        SubPieceMapped(d0, d, S(), sp, ram, sec, rest, rest.(size := n));
        RoomAfterOne(|d.sections|, |d.tree.nodes|, |sections|, |pages.nodes|, pages.levels, left);
      }
    }

    /** Map whole pages. */
    method AddWhole(ghost d0: State, sp: nat, ghost sec: MemorySection, rest: MemorySection, n: nat, ghost left: nat)
      returns (ok: bool)
      requires Valid() && 0 < n <= rest.size && rest.mr.Mr? && InStep(page, sec)
      requires Progress(d0, S(), sp, ram, sec, rest) && rest.start % page == 0 && n % page == 0
      requires (rest.start + n) / page <= Pages(pages.levels)
      requires pages.levels > 0
      modifies this, pages
      ensures ok ==> Valid() && Progress(d0, S(), sp, ram, sec, Advance(rest, n))
      ensures !ok ==> Full()
      ensures left > 0 && old(Room(|sections|, |pages.nodes|, pages.levels, left)) ==>
        ok && Room(|sections|, |pages.nodes|, pages.levels, left - 1)
    {
      hide Tree.Valid, Tree.At, State.Valid, State.Answer, Room, InStep;
      ghost var d := S();
      Bounds(d);
      forall pg: nat | rest.start / page <= pg < (rest.start + n) / page
        ensures d.Vacant(sp, pg)
      {
        WholePages(page, rest.start, n, pg);
        assert WholePage(page, rest, pg);
      }
      RoomForOne(|sections|, |pages.nodes|, pages.levels, left);
      ok := RegisterMultipage(sp, rest.(size := n));
      if ok {
        WholePieceMapped(d0, d, S(), sp, ram, sec, rest, rest.(size := n));
        RoomAfterOne(|d.sections|, |d.tree.nodes|, |sections|, |pages.nodes|, pages.levels, left);
      }
    }

    /** mem_add: cut a section into a head, whole pages and a tail, and map every piece. */
    method MemAdd(sp: nat, sec: MemorySection, ghost room: nat) returns (ok: bool)
      requires Valid() && sp < |pages.roots| && sec.mr.Mr? && sec.size > 0
      requires S().InSpan(sec.start + sec.size - 1) && Ready(S(), sp, sec)
      requires pages.levels > 0
      modifies this, pages
      ensures ok ==> Valid() && LoadedTo(old(S()), S(), sp, ram, sec, sec.start + sec.size)
      ensures ok ==> EdgesOpen(S(), sp, sec) && OnlyTouched(old(S()), S(), sp, sec)
      ensures !ok ==> Full()
      ensures Pieces(page, sec) <= room && old(Room(|sections|, |pages.nodes|, pages.levels, room)) ==>
        ok && Room(|sections|, |pages.nodes|, pages.levels, room - Pieces(page, sec))
    {
      hide Tree.Valid, Tree.At, State.Valid, State.Answer, State.InSpan, SubPieceOf, Room, InStep, Progress, Tail, Need,
        Pieces, EdgesOpen, OnlyTouched, LoadedTo, Ready, AlignUp, Pages;
      ghost var d0 := S();
      ghost var left: nat := room;
      Bounds(d0);
      ghost var fits := Pieces(page, sec) <= room && Room(|sections|, |pages.nodes|, pages.levels, room);
      var remain := sec;
      ProgressStart(d0, sp, ram, sec);
      NeedStart(page, sec);
      if remain.start % page != 0 || remain.size < page {
        var n := Min(AlignUp(remain.start, page) - remain.start, remain.size);
        HeadPiece(page, sec, n);
        SpanPage(d0, sec.start, sec.start + sec.size - 1);
        ok := AddSub(d0, sp, sec, remain, n, left);
        if !ok {
          return;
        }
        remain := Advance(remain, n);
        left := OneLess(left);
      }
      while remain.size >= page
        invariant Valid() && Progress(d0, S(), sp, ram, sec, remain) && Tail(sec, remain)
        invariant remain.size > 0 ==> remain.start % page == 0
        invariant fits ==> Room(|sections|, |pages.nodes|, pages.levels, left)
        invariant fits ==> left >= room - Pieces(page, sec) + Need(page, sec, remain)
        decreases remain.size
      {
        TailBounds(sec, remain);
        if remain.offset % page != 0 {
          MiddlePiece(page, sec, remain);
          SpanPage(d0, remain.start, sec.start + sec.size - 1);
          ok := AddSub(d0, sp, sec, remain, page, left);
          if !ok {
            return;
          }
          remain := Advance(remain, page);
        } else {
          var n := remain.size - remain.size % page;
          WholeEnd(d0, sec, remain, n);
          ok := AddWhole(d0, sp, sec, remain, n, left);
          if !ok {
            return;
          }
          remain := Advance(remain, n);
        }
        left := OneLess(left);
      }
      if remain.size != 0 {
        TailBounds(sec, remain);
        TailPiece(page, sec, remain);
        SpanPage(d0, remain.start, sec.start + sec.size - 1);
        ok := AddSub(d0, sp, sec, remain, remain.size, left);
        if !ok {
          return;
        }
        remain := Advance(remain, remain.size);
        left := OneLess(left);
      }
      ok := true;
      ProgressDone(d0, S(), sp, ram, sec, remain);
      if fits {
        RoomShrinks(|sections|, |pages.nodes|, pages.levels, left, room - Pieces(page, sec));
      }
    }

    /** The listener of one address space: mem_add for every range added or kept.  Told the events of an
        update after `Begin`, it makes every address reach what the new view shows, unless a range leaves the
        span of the page map or the indices run out. */
    method Replay(sp: nat, events: seq<Event>, ghost room: nat) returns (ok: bool)
      requires Valid() && sp < |pages.roots| && Sorted(Reloaded(events))
      requires forall pg: nat | pg < Pages(pages.levels) :: S().Vacant(sp, pg)
      requires pages.levels > 0
      modifies this, pages
      ensures ok ==> Valid() && LoadedRanges(old(S()), S(), sp, ram, Reloaded(events))
      ensures ok ==> OthersKept(old(S()), S(), sp)
      ensures !ok ==> Full() || !Loadable(old(S()), Reloaded(events))
      ensures (&& Loadable(old(S()), Reloaded(events)) && TotalPieces(page, Reloaded(events)) <= room
               && old(Room(|sections|, |pages.nodes|, pages.levels, room))) ==>
        ok && Room(|sections|, |pages.nodes|, pages.levels, room - TotalPieces(page, Reloaded(events)))
    {
      hide Tree.Valid, Tree.At, State.Valid, State.Answer, State.InSpan, Sorted, Room, TotalPieces, Pieces, Loadable,
        LoadedRanges, PagesLeft, LoadedTo, EdgesOpen, Ready, OnlyTouched, Reloaded, RangeLoadable;
      ghost var d0 := S();
      ghost var left: nat := room;
      ghost var v := Reloaded(events);
      Bounds(d0);
      ghost var fits := && Loadable(d0, v) && TotalPieces(page, v) <= room
                        && Room(|sections|, |pages.nodes|, pages.levels, room);
      ghost var k: nat := 0;
      LoadStart(d0, sp, ram);
      ReloadedEmpty();
      assert v[..0] == [] && v[0..] == v && events[..0] == [];
      var j := 0;
      while j < |events|
        invariant j <= |events| && k <= |v| && Valid() && Reloaded(events[..j]) == v[..k]
        invariant LoadedRanges(d0, S(), sp, ram, v[..k]) && PagesLeft(S(), sp, v[..k]) && OthersKept(d0, S(), sp)
        invariant fits ==> Room(|sections|, |pages.nodes|, pages.levels, left)
        invariant fits ==> left - TotalPieces(page, v[k..]) == room - TotalPieces(page, v)
      {
        ReloadedNext(events, j, k);
        if events[j].RegionAdd? || events[j].RegionNop? {
          var fr := events[j].range;
          ghost var d := S();
          assert v[..k + 1] == v[..k] + [fr] && v[k..][1..] == v[k + 1..] && v[k..][0] == fr;
          LoadableAt(d0, v, k);
          if !RangeLoadable(page, pages.levels, fr) {
            return false;
          }
          LoadNext(d0, d, sp, ram, v, k);
          PiecesNext(page, v[k..]);
          ok := MemAdd(sp, SectionFor(fr), left);
          if !ok {
            return;
          }
          left := if fits then left - Pieces(page, SectionFor(fr)) else 0;
          NextLoaded(d0, d, S(), sp, ram, v[..k], fr);
          NextPagesLeft(d, S(), sp, v[..k], fr);
          NextOthers(d0, d, S(), sp, SectionFor(fr));
          k := k + 1;
        }
        j := j + 1;
      }
      ok := true;
      assert events[..j] == events && v[..k] == v && v[k..] == [];
      NoPieces(page);
    }

    /** An access: the page's section, or the section its sub-page table gives for the byte. */
    method Access(sp: nat, addr: nat) returns (r: Reached)
      requires Valid() && sp < |pages.roots| && S().InSpan(addr)
      ensures r == S().Answer(sp, addr)
    {
      hide Tree.Valid, Tree.At;
      PageIsOk(S(), sp, addr / page);
      var i := pages.PageFind(sp, addr / page);
      if sections[i].mr.SubpageTable? {
        assert S().TableOk(sections[i].mr.index);
        i := tables[sections[i].mr.index].table[addr % page];
      }
      r := Reached(sections[i].mr, addr - sections[i].start + sections[i].offset);
    }
  }
}
