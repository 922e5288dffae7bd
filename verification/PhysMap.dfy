/** The multi-level physical page map (exec.c): a radix tree whose nodes live in one growing array
    shared by every address space. */
module PhysMap {
  import opened Prelude
  import opened Arithmetic

  const L2_SIZE: nat := 1024
  const NODE_NIL: nat := 0x7fff

  /** Index of the section for pages that nothing maps. */
  const UNASSIGNED: nat := 0

  /** PhysPageEntry: `ptr` indexes the sections if `isLeaf`, else the nodes. */
  datatype Entry = Entry(isLeaf: bool, ptr: nat)

  const EMPTY := Entry(false, NODE_NIL)

  type Node = seq<Entry>

  /** Number of pages below one slot of a node at `level`. */
  function Pages(level: nat): (n: nat)
    ensures n > 0
  {
    if level == 0 then 1 else L2_SIZE * Pages(level - 1)
  }

  /** The part of the page space that a slot stands for: the pages `x` of `space` with
      x / Pages(level + 1) == prefix. */
  datatype Key = Key(space: nat, level: int, prefix: nat) {
    function Child(s: nat): Key {
      Key(space, level - 1, prefix * L2_SIZE + s)
    }

    function Parent(): Key {
      Key(space, level + 1, prefix / L2_SIZE)
    }
  }

  /** A pointer to an entry: the root of a space, or a slot of a node. */
  datatype Slot = Root(space: nat) | In(node: nat, slot: nat)

  /** The map: one root entry per address space, the nodes in use, and what each node stands for. */
  datatype Tree = Tree(levels: nat, roots: seq<Entry>, nodes: seq<Node>, keys: seq<Key>) {

    ghost predicate EntryOk(e: Entry, k: Key) {
      if e.isLeaf then true
      else k.level >= 0 && (e.ptr == NODE_NIL || (e.ptr < |keys| && keys[e.ptr] == k))
    }

    ghost predicate HasSlot(at: Slot) {
      match at
      case Root(space) => space < |roots|
      case In(j, s) => j < |nodes| && j < |keys| && |nodes[j]| == L2_SIZE && s < L2_SIZE
    }

    ghost function Get(at: Slot): Entry
      requires HasSlot(at)
    {
      match at
      case Root(space) => roots[space]
      case In(j, s) => nodes[j][s]
    }

    ghost function Put(at: Slot, e: Entry): Tree
      requires HasSlot(at)
    {
      match at
      case Root(space) => this.(roots := roots[space := e])
      case In(j, s) => this.(nodes := nodes[j := nodes[j][s := e]])
    }

    /** What the entry in a slot stands for. */
    ghost function KeyAt(at: Slot): Key
      requires HasSlot(at)
    {
      match at
      case Root(space) => Key(space, levels - 1, 0)
      case In(j, s) => keys[j].Child(s)
    }

    ghost predicate Shaped() {
      && levels > 0
      && |nodes| == |keys| <= NODE_NIL
      && (forall j | 0 <= j < |nodes| ::
            |nodes[j]| == L2_SIZE && 0 <= keys[j].level < levels && keys[j].space < |roots|)
      && (forall sp | 0 <= sp < |roots| :: !roots[sp].isLeaf)
    }

    ghost predicate Distinct() {
      forall i, j | 0 <= i < j < |keys| :: keys[i] != keys[j]
    }

    ghost predicate EntriesOk() {
      forall at | HasSlot(at) :: EntryOk(Get(at), KeyAt(at))
    }

    /** The node for a slot's key, if there is one, hangs off that slot unless a leaf has cut it off. */
    ghost predicate Linked() {
      forall at, j | HasSlot(at) && 0 <= j < |keys| && keys[j] == KeyAt(at) :: Get(at).isLeaf || Get(at).ptr == j
    }

    ghost predicate Parented() {
      forall j | 0 <= j < |keys| && keys[j].level < levels - 1 :: keys[j].Parent() in keys
    }

    /** Every node's pages lie inside the span of the map. */
    ghost predicate Spanned() {
      forall j | 0 <= j < |keys| :: SpanOk(keys[j], levels)
    }

    ghost predicate Valid() {
      Shaped() && Spanned() && Distinct() && EntriesOk() && Linked() && Parented()
    }

    /** phys_page_find's walk, from entry `e` met at `level`; `big` marks a leaf above the last level. */
    ghost function Walk(e: Entry, level: int, x: nat): Hit
      decreases level
    {
      if e.isLeaf || level < 0 then Hit(e.ptr, level >= 0)
      else if e.ptr >= |nodes| || |nodes[e.ptr]| != L2_SIZE then Hit(UNASSIGNED, false)
      else Walk(nodes[e.ptr][x / Pages(level) % L2_SIZE], level - 1, x)
    }

    /** What the map holds for page `x` of a space. */
    ghost function At(space: nat, x: nat): Hit
      requires space < |roots|
    {
      Walk(roots[space], levels - 1, x)
    }

    /** The walk for page `x` from entry `e` enters node `p`. */
    ghost predicate Enters(e: Entry, level: int, x: nat, p: nat)
      decreases level
    {
      && !e.isLeaf && level >= 0 && e.ptr < |nodes| && |nodes[e.ptr]| == L2_SIZE
      && (e.ptr == p || Enters(nodes[e.ptr][x / Pages(level) % L2_SIZE], level - 1, x, p))
    }

    /** The walk for every page that node `p` stands for enters it. */
    ghost predicate Live(p: nat)
      requires p < |keys|
    {
      forall x: nat {:trigger Covers(keys[p], x)} | Covers(keys[p], x) && keys[p].space < |roots| ::
        Enters(roots[keys[p].space], levels - 1, x, p)
    }

    ghost predicate SlotLive(at: Slot)
      requires HasSlot(at)
    {
      at.In? ==> Live(at.node)
    }

    ghost function Extend(n: Node, k: Key): Tree {
      this.(nodes := nodes + [n], keys := keys + [k])
    }
  }

  datatype Hit = Hit(section: nat, big: bool)

  predicate Covers(k: Key, x: nat) {
    k.level + 1 >= 0 && x / Pages(k.level + 1) == k.prefix
  }

  predicate SpanOk(k: Key, levels: nat) {
    k.level >= 0 && (k.prefix + 1) * Pages(k.level + 1) <= Pages(levels)
  }

  lemma PagesDiv(x: nat, level: nat)
    ensures x / Pages(level + 1) == x / Pages(level) / L2_SIZE
    ensures x / Pages(level) == x / Pages(level + 1) * L2_SIZE + x / Pages(level) % L2_SIZE
  {
    var d := Pages(level);
    var q := x / d;
    var a, b := q / L2_SIZE, q % L2_SIZE;
    DivBounds(x, d);
    assert (a * L2_SIZE + b) * d == a * (L2_SIZE * d) + b * d;
    MulLess(b, L2_SIZE, d);
    assert b * d >= 0;
    DivIs(x, L2_SIZE * d, a);
  }

  /** A page lies under a slot's child exactly when it takes that child's digit. */
  lemma CoversChild(k: Key, s: nat, x: nat)
    requires k.level >= 0 && s < L2_SIZE
    ensures Covers(k.Child(s), x) <==> Covers(k, x) && x / Pages(k.level) % L2_SIZE == s
  {
    PagesDiv(x, k.level);
  }

  // Effect of one write on every walk.

  /** Where a walk can enter a node. */
  lemma {:induction false} EntersWhere(t: Tree, e: Entry, sp: nat, level: int, x: nat, p: nat)
    requires t.Shaped() && t.EntriesOk() && p < |t.keys|
    requires -1 <= level && t.EntryOk(e, Key(sp, level, x / Pages(level + 1))) && t.Enters(e, level, x, p)
    ensures t.keys[p].space == sp && t.keys[p].level <= level && Covers(t.keys[p], x)
    decreases level + 1
  {
    if e.ptr != p {
      StepDown(t, e, sp, level, x);
      EntersWhere(t, t.nodes[e.ptr][x / Pages(level) % L2_SIZE], sp, level - 1, x, p);
    }
  }

  lemma StepDown(t: Tree, e: Entry, sp: nat, level: int, x: nat)
    requires t.Shaped() && t.EntriesOk() && 0 <= level && !e.isLeaf && e.ptr < |t.nodes|
    requires t.EntryOk(e, Key(sp, level, x / Pages(level + 1)))
    ensures t.EntryOk(t.nodes[e.ptr][x / Pages(level) % L2_SIZE], Key(sp, level - 1, x / Pages(level)))
  {
    var at := In(e.ptr, x / Pages(level) % L2_SIZE);
    assert t.HasSlot(at);
    PagesDiv(x, level);
  }

  /** Writing one slot of node `p` redirects exactly the walks that enter `p` and take that slot. */
  lemma {:induction false} WalkPut(t: Tree, e: Entry, sp: nat, level: int, x: nat, p: nat, s: nat, e': Entry)
    requires t.Shaped() && t.EntriesOk() && p < |t.nodes| && s < L2_SIZE && -1 <= level
    requires t.EntryOk(e, Key(sp, level, x / Pages(level + 1)))
    ensures t.Put(In(p, s), e').Walk(e, level, x) ==
            if t.Enters(e, level, x, p) && x / Pages(t.keys[p].level) % L2_SIZE == s
            then t.Put(In(p, s), e').Walk(e', t.keys[p].level - 1, x)
            else t.Walk(e, level, x)
    decreases level + 1
  {
    if level >= 0 && !e.isLeaf && e.ptr < |t.nodes| {
      var d := x / Pages(level) % L2_SIZE;
      var n := t.nodes[e.ptr][d];
      StepDown(t, e, sp, level, x);
      if e.ptr == p {
        if d != s {
          WalkPut(t, n, sp, level - 1, x, p, s, e');
          if t.Enters(n, level - 1, x, p) {
            EntersWhere(t, n, sp, level - 1, x, p);
          }
        }
      } else {
        WalkPut(t, n, sp, level - 1, x, p, s, e');
      }
    }
  }

  /** Writing at or below the level of node `p` does not change who enters `p`. */
  lemma {:induction false} EntersPut(t: Tree, e: Entry, sp: nat, level: int, x: nat, p: nat, j: nat, s: nat, e': Entry)
    requires t.Shaped() && t.EntriesOk() && p < |t.nodes| && j < |t.nodes| && s < L2_SIZE && -1 <= level
    requires t.keys[j].level <= t.keys[p].level
    requires t.EntryOk(e, Key(sp, level, x / Pages(level + 1))) && t.Enters(e, level, x, p)
    ensures t.Put(In(j, s), e').Enters(e, level, x, p)
    decreases level + 1
  {
    if e.ptr != p {
      var n := t.nodes[e.ptr][x / Pages(level) % L2_SIZE];
      StepDown(t, e, sp, level, x);
      EntersWhere(t, n, sp, level - 1, x, p);
      EntersPut(t, n, sp, level - 1, x, p, j, s, e');
    }
  }

  lemma {:induction false} WalkExtend(t: Tree, n: Node, k: Key, e: Entry, sp: nat, level: int, x: nat)
    requires t.Shaped() && t.EntriesOk() && |t.nodes| < NODE_NIL && |n| == L2_SIZE && -1 <= level
    requires t.EntryOk(e, Key(sp, level, x / Pages(level + 1)))
    ensures t.Extend(n, k).Walk(e, level, x) == t.Walk(e, level, x)
    ensures forall p | 0 <= p < |t.nodes| && t.Enters(e, level, x, p) :: t.Extend(n, k).Enters(e, level, x, p)
    decreases level + 1
  {
    if level >= 0 && !e.isLeaf && e.ptr < |t.nodes| {
      StepDown(t, e, sp, level, x);
      WalkExtend(t, n, k, t.nodes[e.ptr][x / Pages(level) % L2_SIZE], sp, level - 1, x);
    }
  }

  /** A walk that meets a leaf above the last level reports it. */
  lemma {:induction false} LeafIsBig(t: Tree, e: Entry, sp: nat, level: int, x: nat, p: nat)
    requires t.Shaped() && t.EntriesOk() && p < |t.nodes| && -1 <= level && t.keys[p].level > 0
    requires t.EntryOk(e, Key(sp, level, x / Pages(level + 1))) && t.Enters(e, level, x, p)
    requires t.nodes[p][x / Pages(t.keys[p].level) % L2_SIZE].isLeaf
    ensures t.Walk(e, level, x).big
    decreases level + 1
  {
    if e.ptr != p {
      StepDown(t, e, sp, level, x);
      LeafIsBig(t, t.nodes[e.ptr][x / Pages(level) % L2_SIZE], sp, level - 1, x, p);
    }
  }

  lemma RootEntry(t: Tree, sp: nat, x: nat)
    requires t.Shaped() && t.EntriesOk() && sp < |t.roots| && x < Pages(t.levels)
    ensures x / Pages(t.levels) == 0
    ensures t.EntryOk(t.roots[sp], Key(sp, t.levels - 1, x / Pages(t.levels)))
  {
    DivIs(x, Pages(t.levels), 0);
    assert t.HasSlot(Root(sp));
  }

  lemma AtPutIn(t: Tree, p: nat, s: nat, e': Entry, sp: nat, x: nat)
    requires t.Shaped() && t.EntriesOk() && p < |t.nodes| && s < L2_SIZE && t.Live(p) && sp < |t.roots|
    requires x < Pages(t.levels)
    ensures t.Put(In(p, s), e').At(sp, x) ==
            if sp == t.keys[p].space && Covers(t.keys[p].Child(s), x)
            then t.Put(In(p, s), e').Walk(e', t.keys[p].level - 1, x)
            else t.At(sp, x)
  {
    RootEntry(t, sp, x);
    WalkPut(t, t.roots[sp], sp, t.levels - 1, x, p, s, e');
    CoversChild(t.keys[p], s, x);
    if t.Enters(t.roots[sp], t.levels - 1, x, p) {
      EntersWhere(t, t.roots[sp], sp, t.levels - 1, x, p);
    }
  }

  lemma LivePut(t: Tree, p: nat, j: nat, s: nat, e': Entry)
    requires t.Shaped() && t.EntriesOk() && p < |t.nodes| && j < |t.nodes| && s < L2_SIZE
    requires t.keys[j].level <= t.keys[p].level && t.Live(p) && t.Spanned()
    ensures t.Put(In(j, s), e').Live(p)
  {
    var t' := t.Put(In(j, s), e');
    forall x: nat {:trigger Covers(t'.keys[p], x)} | Covers(t'.keys[p], x)
      ensures t'.Enters(t'.roots[t.keys[p].space], t'.levels - 1, x, p)
    {
      assert Covers(t.keys[p], x);
      CoveredInSpan(t, t.keys[p], x);
      RootEntry(t, t.keys[p].space, x);
      EntersPut(t, t.roots[t.keys[p].space], t.keys[p].space, t.levels - 1, x, p, j, s, e');
    }
  }

  lemma CoveredInSpan(t: Tree, k: Key, x: nat)
    requires SpanOk(k, t.levels) && Covers(k, x)
    ensures x < Pages(t.levels)
  {
    var q, d := k.prefix, Pages(k.level + 1);
    DivBounds(x, d);
    assert (q + 1) * d == q * d + d;
  }

  lemma ChildSpan(k: Key, s: nat, levels: nat)
    requires SpanOk(k, levels) && k.level > 0 && s < L2_SIZE
    ensures SpanOk(k.Child(s), levels)
  {
    var d := Pages(k.level);
    var q := k.prefix * L2_SIZE + s;
    assert (k.prefix + 1) * (L2_SIZE * d) == ((k.prefix + 1) * L2_SIZE) * d;
    if q + 1 < (k.prefix + 1) * L2_SIZE {
      MulLess(q + 1, (k.prefix + 1) * L2_SIZE, d);
    }
  }

  lemma KeySpan(t: Tree, at: Slot)
    requires t.Shaped() && t.Spanned() && t.HasSlot(at) && t.KeyAt(at).level >= 0
    ensures SpanOk(t.KeyAt(at), t.levels)
  {
    if at.In? {
      ChildSpan(t.keys[at.node], at.slot, t.levels);
    }
  }

  /** A new node: nothing below it yet. */
  function Fresh(level: int): (n: Node)
    ensures |n| == L2_SIZE
    ensures forall s | 0 <= s < L2_SIZE :: n[s] == if level == 0 then Entry(true, UNASSIGNED) else EMPTY
  {
    seq(L2_SIZE, _ => if level == 0 then Entry(true, UNASSIGNED) else EMPTY)
  }

  /** The tree after a node has been allocated for slot `at`. */
  ghost function Grown(t: Tree, at: Slot): Tree
    requires t.HasSlot(at)
  {
    t.Extend(Fresh(t.KeyAt(at).level), t.KeyAt(at)).Put(at, Entry(false, |t.nodes|))
  }

  ghost predicate CanGrow(t: Tree, at: Slot) {
    && t.Valid() && t.HasSlot(at) && t.KeyAt(at).level >= 0 && |t.nodes| < NODE_NIL
    && t.Get(at) == EMPTY
  }

  lemma NoNodeYet(t: Tree, at: Slot)
    requires CanGrow(t, at)
    ensures t.KeyAt(at) !in t.keys
  {
  }

  lemma GrownSlots(t: Tree, at: Slot, o: Slot)
    requires CanGrow(t, at)
    ensures var t' := Grown(t, at);
      t'.HasSlot(o) <==> t.HasSlot(o) || (o.In? && o.node == |t.nodes| && o.slot < L2_SIZE)
    ensures var t' := Grown(t, at);
      t.HasSlot(o) ==> t'.KeyAt(o) == t.KeyAt(o) && t'.Get(o) == if o == at then Entry(false, |t.nodes|) else t.Get(o)
    ensures var t' := Grown(t, at);
      o.In? && o.node == |t.nodes| && o.slot < L2_SIZE ==>
        t'.KeyAt(o) == t.KeyAt(at).Child(o.slot) && t'.Get(o) == Fresh(t.KeyAt(at).level)[o.slot]
  {
  }

  lemma GrownEntries(t: Tree, at: Slot)
    requires CanGrow(t, at)
    ensures Grown(t, at).EntriesOk()
  {
    var t' := Grown(t, at);
    forall o | t'.HasSlot(o)
      ensures t'.EntryOk(t'.Get(o), t'.KeyAt(o))
    {
      GrownSlots(t, at, o);
      if t.HasSlot(o) {
        assert t.EntryOk(t.Get(o), t.KeyAt(o));
      }
    }
  }

  lemma GrownLinked(t: Tree, at: Slot)
    requires CanGrow(t, at)
    ensures Grown(t, at).Linked()
  {
    var t' := Grown(t, at);
    NoNodeYet(t, at);
    forall o, j | t'.HasSlot(o) && 0 <= j < |t'.keys| && t'.keys[j] == t'.KeyAt(o)
      ensures t'.Get(o).isLeaf || t'.Get(o).ptr == j
    {
      GrownSlots(t, at, o);
      if t.HasSlot(o) {
        if j == |t.keys| {
          SameKeySameSlot(t, o, at);
        }
      } else {
        NoChildYet(t, at, o.slot);
      }
    }
  }

  lemma NoChildYet(t: Tree, at: Slot, s: nat)
    requires CanGrow(t, at) && s < L2_SIZE
    ensures t.KeyAt(at).Child(s) !in t.keys
  {
    NoNodeYet(t, at);
    assert t.KeyAt(at).Child(s).Parent() == t.KeyAt(at);
  }

  /** Two slots that stand for the same pages are the same slot. */
  lemma SameKeySameSlot(t: Tree, a: Slot, b: Slot)
    requires t.Valid() && t.HasSlot(a) && t.HasSlot(b) && t.KeyAt(a) == t.KeyAt(b)
    ensures a == b
  {
    if a.In? && b.In? {
      assert t.keys[a.node] == t.keys[b.node];
    }
  }

  lemma GrownValid(t: Tree, at: Slot)
    requires CanGrow(t, at)
    ensures Grown(t, at).Valid()
  {
    hide Tree.EntriesOk, Tree.Linked;
    var t' := Grown(t, at);
    NoNodeYet(t, at);
    GrownEntries(t, at);
    GrownLinked(t, at);
    KeySpan(t, at);
    assert t'.Distinct();
    forall j | 0 <= j < |t'.keys| && t'.keys[j].level < t'.levels - 1
      ensures t'.keys[j].Parent() in t'.keys
    {
      if j == |t.keys| {
        assert t'.keys[j].Parent() == t.keys[at.node];
      } else {
        assert t.keys[j].Parent() in t.keys;
      }
    }
  }

  ghost predicate SameMap(t: Tree, t': Tree) {
    && t'.levels == t.levels && |t'.roots| == |t.roots|
    && forall sp: nat, x: nat {:trigger t'.At(sp, x)} | sp < |t.roots| && x < Pages(t.levels) ::
         t'.At(sp, x) == t.At(sp, x)
  }

  /** The map of `t'` is that of `t` with the pages [from, to) of `space` sent to section `leaf`. */
  ghost predicate Updated(t: Tree, t': Tree, space: nat, from: nat, to: nat, leaf: nat) {
    && t'.levels == t.levels && |t'.roots| == |t.roots|
    && forall sp: nat, x: nat {:trigger t'.At(sp, x)} | sp < |t.roots| && x < Pages(t.levels) ::
         if sp == space && from <= x < to then t'.At(sp, x).section == leaf else t'.At(sp, x) == t.At(sp, x)
  }

  ghost predicate SlotKept(t: Tree, t': Tree, o: Slot)
    requires t.HasSlot(o)
  {
    t'.HasSlot(o) && t'.Get(o) == t.Get(o)
  }

  /** What a change below slot `lp`, which stands for `level`, leaves alone. */
  ghost predicate Outside(t: Tree, t': Tree, lp: Slot, level: int) {
    && t'.levels == t.levels && |t'.roots| == |t.roots| && t.keys <= t'.keys
    && (forall o | t.HasSlot(o) && t.KeyAt(o).level >= level && o != lp :: SlotKept(t, t', o))
    && (forall p: nat {:trigger t'.Live(p)} | p < |t.keys| && t.keys[p].level > level && t.Live(p) :: t'.Live(p))
  }

  lemma FreshWalk(t: Tree, at: Slot, x: nat)
    requires CanGrow(t, at)
    ensures Grown(t, at).Walk(Entry(false, |t.nodes|), t.KeyAt(at).level, x) == Hit(UNASSIGNED, false)
  {
    var t' := Grown(t, at);
    var level := t.KeyAt(at).level;
    var d := x / Pages(level) % L2_SIZE;
    GrownSlots(t, at, In(|t.nodes|, d));
    assert t'.nodes[|t.nodes|][d] == Fresh(level)[d];
  }

  lemma EmptyWalk(t: Tree, e: Entry, sp: nat, level: int, x: nat, p: nat)
    requires t.Shaped() && t.EntriesOk() && p < |t.nodes| && -1 <= level
    requires t.EntryOk(e, Key(sp, level, x / Pages(level + 1))) && t.Enters(e, level, x, p)
    requires t.keys[p].level > 0 && t.nodes[p][x / Pages(t.keys[p].level) % L2_SIZE] == EMPTY
    ensures t.Walk(e, level, x) == Hit(UNASSIGNED, false)
    decreases level + 1
  {
    if e.ptr != p {
      StepDown(t, e, sp, level, x);
      EmptyWalk(t, t.nodes[e.ptr][x / Pages(level) % L2_SIZE], sp, level - 1, x, p);
    }
  }

  lemma ExtendOk(t: Tree, at: Slot)
    requires CanGrow(t, at)
    ensures var u := t.Extend(Fresh(t.KeyAt(at).level), t.KeyAt(at)); u.Shaped() && u.EntriesOk()
  {
    var u := t.Extend(Fresh(t.KeyAt(at).level), t.KeyAt(at));
    forall o | u.HasSlot(o)
      ensures u.EntryOk(u.Get(o), u.KeyAt(o))
    {
      ExtendSlots(t, Fresh(t.KeyAt(at).level), t.KeyAt(at), o);
    }
  }

  lemma ExtendSlots(t: Tree, n: Node, k: Key, o: Slot)
    requires t.Shaped() && t.EntriesOk() && |n| == L2_SIZE && k.level >= 0 && n == Fresh(k.level)
    requires t.Extend(n, k).HasSlot(o)
    ensures t.Extend(n, k).EntryOk(t.Extend(n, k).Get(o), t.Extend(n, k).KeyAt(o))
  {
    if t.HasSlot(o) {
      assert t.EntryOk(t.Get(o), t.KeyAt(o));
    }
  }

  lemma ExtendLive(t: Tree, at: Slot, p: nat)
    requires CanGrow(t, at) && p < |t.nodes| && t.Live(p)
    ensures t.Extend(Fresh(t.KeyAt(at).level), t.KeyAt(at)).Live(p)
  {
    var n, k := Fresh(t.KeyAt(at).level), t.KeyAt(at);
    var u := t.Extend(n, k);
    forall x: nat {:trigger Covers(u.keys[p], x)} | Covers(u.keys[p], x) && u.keys[p].space < |u.roots|
      ensures u.Enters(u.roots[u.keys[p].space], u.levels - 1, x, p)
    {
      assert Covers(t.keys[p], x);
      CoveredInSpan(t, t.keys[p], x);
      RootEntry(t, t.keys[p].space, x);
      WalkExtend(t, n, k, t.roots[t.keys[p].space], t.keys[p].space, t.levels - 1, x);
    }
  }

  /** Pages under an empty slot are not mapped. */
  lemma EmptyAt(t: Tree, p: nat, s: nat, x: nat)
    requires CanGrow(t, In(p, s)) && t.Live(p) && Covers(t.keys[p].Child(s), x)
    ensures t.keys[p].space < |t.roots| && t.At(t.keys[p].space, x) == Hit(UNASSIGNED, false)
  {
    hide Tree.Linked, Tree.Parented, Tree.Distinct;
    var sp := t.keys[p].space;
    CoversChild(t.keys[p], s, x);
    CoveredInSpan(t, t.keys[p], x);
    RootEntry(t, sp, x);
    EmptyWalk(t, t.roots[sp], sp, t.levels - 1, x, p);
  }

  lemma ExtendAt(t: Tree, at: Slot, sp: nat, x: nat)
    requires CanGrow(t, at) && sp < |t.roots| && x < Pages(t.levels)
    ensures t.Extend(Fresh(t.KeyAt(at).level), t.KeyAt(at)).At(sp, x) == t.At(sp, x)
  {
    hide Tree.Linked, Tree.Parented, Tree.Distinct, Tree.Spanned, Tree.Walk, Tree.Enters;
    RootEntry(t, sp, x);
    WalkExtend(t, Fresh(t.KeyAt(at).level), t.KeyAt(at), t.roots[sp], sp, t.levels - 1, x);
  }

  lemma GrownAtRoot(t: Tree, space: nat, sp: nat, x: nat)
    requires CanGrow(t, Root(space)) && sp < |t.roots| && x < Pages(t.levels)
    ensures Grown(t, Root(space)).At(sp, x) == t.At(sp, x)
  {
    hide Tree.EntriesOk, Tree.Linked, Tree.Parented, Tree.Distinct, Tree.Spanned;
    var at := Root(space);
    var u := t.Extend(Fresh(t.KeyAt(at).level), t.KeyAt(at));
    ExtendAt(t, at, sp, x);
    FreshWalk(t, at, x);
    WalkIgnoresRoots(u, u.Put(at, Entry(false, |t.nodes|)), u.roots[sp], u.levels - 1, x);
  }

  lemma GrownAtIn(t: Tree, p: nat, s: nat, sp: nat, x: nat)
    requires CanGrow(t, In(p, s)) && t.Live(p) && sp < |t.roots| && x < Pages(t.levels)
    ensures Grown(t, In(p, s)).At(sp, x) == t.At(sp, x)
  {
    hide Tree.EntriesOk, Tree.Linked, Tree.Parented, Tree.Distinct, Tree.Spanned, Tree.Live, Tree.Walk, Tree.Enters,
      Covers, Pages;
    var at := In(p, s);
    var u := t.Extend(Fresh(t.KeyAt(at).level), t.KeyAt(at));
    ExtendOk(t, at);
    ExtendAt(t, at, sp, x);
    ExtendLive(t, at, p);
    FreshWalk(t, at, x);
    AtPutIn(u, p, s, Entry(false, |t.nodes|), sp, x);
    if sp == t.keys[p].space && Covers(t.keys[p].Child(s), x) {
      EmptyAt(t, p, s, x);
    }
  }

  lemma GrownAt(t: Tree, at: Slot, sp: nat, x: nat)
    requires CanGrow(t, at) && t.SlotLive(at) && sp < |t.roots| && x < Pages(t.levels)
    ensures Grown(t, at).At(sp, x) == t.At(sp, x)
  {
    hide CanGrow, Grown, Tree.At, Tree.Live;
    match at
    case Root(space) => GrownAtRoot(t, space, sp, x);
    case In(p, s) => GrownIn(t, p, s);
      GrownAtIn(t, p, s, sp, x);
  }

  lemma GrownIn(t: Tree, p: nat, s: nat)
    requires CanGrow(t, In(p, s)) && t.SlotLive(In(p, s))
    ensures p < |t.keys| && t.Live(p)
  {
  }

  lemma {:induction false} WalkIgnoresRoots(t: Tree, t': Tree, e: Entry, level: int, x: nat)
    requires t'.nodes == t.nodes && -1 <= level
    ensures t'.Walk(e, level, x) == t.Walk(e, level, x)
    ensures forall p | 0 <= p < |t.nodes| && t.Enters(e, level, x, p) :: t'.Enters(e, level, x, p)
    decreases level + 1
  {
    if level >= 0 && !e.isLeaf && e.ptr < |t.nodes| && |t.nodes[e.ptr]| == L2_SIZE {
      WalkIgnoresRoots(t, t', t.nodes[e.ptr][x / Pages(level) % L2_SIZE], level - 1, x);
    }
  }

  lemma GrownKeepsLive(t: Tree, at: Slot, p: nat)
    requires CanGrow(t, at) && p < |t.nodes| && t.Live(p) && t.keys[p].level > t.KeyAt(at).level
    ensures Grown(t, at).Live(p)
  {
    var k := t.KeyAt(at);
    var u := t.Extend(Fresh(k.level), k);
    ExtendOk(t, at);
    ExtendLive(t, at, p);
    KeySpan(t, at);
    assert u.Spanned();
    if at.In? {
      LivePut(u, p, at.node, at.slot, Entry(false, |t.nodes|));
    }
  }

  lemma GrownIsLive(t: Tree, at: Slot)
    requires CanGrow(t, at) && t.SlotLive(at)
    ensures Grown(t, at).Live(|t.nodes|)
  {
    hide Tree.Distinct, Tree.Linked, Tree.Parented, Tree.EntriesOk, Tree.Spanned;
    var t' := Grown(t, at);
    forall x: nat {:trigger Covers(t'.keys[|t.nodes|], x)} | Covers(t'.keys[|t.nodes|], x)
      ensures t'.Enters(t'.roots[t.KeyAt(at).space], t'.levels - 1, x, |t.nodes|)
    {
      if at.In? {
        EntersGrown(t, at, x);
      }
    }
  }

  lemma EntersGrown(t: Tree, at: Slot, x: nat)
    requires CanGrow(t, at) && at.In? && t.Live(at.node) && Covers(t.KeyAt(at), x)
    ensures Grown(t, at).Enters(t.roots[t.KeyAt(at).space], t.levels - 1, x, |t.nodes|)
  {
    hide Tree.Distinct, Tree.Linked, Tree.Parented;
    var t' := Grown(t, at);
    var p, sp := at.node, t.KeyAt(at).space;
    CoversChild(t.keys[p], at.slot, x);
    CoveredInSpan(t, t.keys[p], x);
    GrownValid(t, at);
    GrownKeepsLive(t, at, p);
    GrownSlots(t, at, at);
    assert Covers(t'.keys[p], x);
    RootEntry(t', sp, x);
    EntersBelow(t', t'.roots[sp], sp, t'.levels - 1, x, p, |t.nodes|);
  }

  /** A walk that enters node `p` enters the node in the slot it takes there. */
  lemma {:induction false} EntersBelow(t: Tree, e: Entry, sp: nat, level: int, x: nat, p: nat, c: nat)
    requires t.Shaped() && t.EntriesOk() && p < |t.nodes| && c < |t.nodes| && -1 <= level
    requires t.EntryOk(e, Key(sp, level, x / Pages(level + 1))) && t.Enters(e, level, x, p)
    requires t.keys[p].level > 0 && t.nodes[p][x / Pages(t.keys[p].level) % L2_SIZE] == Entry(false, c)
    ensures t.Enters(e, level, x, c)
    decreases level + 1
  {
    if e.ptr != p {
      StepDown(t, e, sp, level, x);
      EntersBelow(t, t.nodes[e.ptr][x / Pages(level) % L2_SIZE], sp, level - 1, x, p, c);
    }
  }

  lemma GrownOutside(t: Tree, at: Slot)
    requires CanGrow(t, at) && t.SlotLive(at)
    ensures Outside(t, Grown(t, at), at, t.KeyAt(at).level)
    ensures SameMap(t, Grown(t, at))
  {
    hide Tree.Distinct, Tree.Linked, Tree.Parented, Tree.Live, Tree.Walk, Tree.At;
    var t' := Grown(t, at);
    forall o | t.HasSlot(o) && o != at
      ensures SlotKept(t, t', o)
    {
      GrownSlots(t, at, o);
    }
    forall p: nat {:trigger t'.Live(p)} | p < |t.keys| && t.keys[p].level > t.KeyAt(at).level && t.Live(p)
      ensures t'.Live(p)
    {
      GrownKeepsLive(t, at, p);
    }
    forall sp: nat, x: nat {:trigger t'.At(sp, x)} | sp < |t.roots| && x < Pages(t.levels)
      ensures t'.At(sp, x) == t.At(sp, x)
    {
      GrownAt(t, at, sp, x);
    }
  }

  lemma PutLeafSlots(t: Tree, p: nat, s: nat, leaf: nat, o: Slot)
    requires t.Shaped() && p < |t.nodes| && s < L2_SIZE
    ensures var t' := t.Put(In(p, s), Entry(true, leaf));
      && (t'.HasSlot(o) <==> t.HasSlot(o))
      && (t.HasSlot(o) ==>
            t'.KeyAt(o) == t.KeyAt(o) && t'.Get(o) == if o == In(p, s) then Entry(true, leaf) else t.Get(o))
  {
  }

  lemma PutLeafValid(t: Tree, p: nat, s: nat, leaf: nat)
    requires t.Valid() && p < |t.nodes| && s < L2_SIZE
    ensures t.Put(In(p, s), Entry(true, leaf)).Valid()
  {
    var t' := t.Put(In(p, s), Entry(true, leaf));
    forall o | t'.HasSlot(o)
      ensures t'.EntryOk(t'.Get(o), t'.KeyAt(o))
    {
      PutLeafSlots(t, p, s, leaf, o);
    }
    forall o, j | t'.HasSlot(o) && 0 <= j < |t'.keys| && t'.keys[j] == t'.KeyAt(o)
      ensures t'.Get(o).isLeaf || t'.Get(o).ptr == j
    {
      PutLeafSlots(t, p, s, leaf, o);
    }
  }

  lemma PutLeaf(t: Tree, p: nat, s: nat, leaf: nat, from: nat, to: nat)
    requires t.Valid() && p < |t.nodes| && s < L2_SIZE && t.Live(p)
    requires forall x: nat :: from <= x < to <==> Covers(t.keys[p].Child(s), x)
    ensures var t' := t.Put(In(p, s), Entry(true, leaf));
      t'.Valid() && t'.Live(p) && Updated(t, t', t.keys[p].space, from, to, leaf)
      && Outside(t, t', In(p, s), t.keys[p].level - 1)
  {
    hide Tree.Distinct, Tree.Linked, Tree.Parented, Tree.Live;
    var t' := t.Put(In(p, s), Entry(true, leaf));
    PutLeafValid(t, p, s, leaf);
    forall sp: nat, x: nat {:trigger t'.At(sp, x)} | sp < |t.roots| && x < Pages(t.levels)
      ensures if sp == t.keys[p].space && from <= x < to then t'.At(sp, x).section == leaf
              else t'.At(sp, x) == t.At(sp, x)
    {
      AtPutIn(t, p, s, Entry(true, leaf), sp, x);
    }
    forall q: nat {:trigger t'.Live(q)} | q < |t.keys| && t.keys[q].level >= t.keys[p].level && t.Live(q)
      ensures t'.Live(q)
    {
      LivePut(t, q, p, s, Entry(true, leaf));
    }
  }

  lemma SlotNotLeaf(t: Tree, p: nat, s: nat, x: nat)
    requires t.Valid() && p < |t.nodes| && s < L2_SIZE && t.Live(p) && t.keys[p].level > 0
    requires Covers(t.keys[p].Child(s), x) && !t.At(t.keys[p].space, x).big
    ensures !t.nodes[p][s].isLeaf
  {
    hide Tree.Linked, Tree.Parented, Tree.Distinct, Pages;
    CoversChild(t.keys[p], s, x);
    CoveredInSpan(t, t.keys[p], x);
    RootEntry(t, t.keys[p].space, x);
    assert Covers(t.keys[p], x);
    if t.nodes[p][s].isLeaf {
      LeafIsBig(t, t.roots[t.keys[p].space], t.keys[p].space, t.levels - 1, x, p);
    }
  }

  lemma UpdatedTrans(t: Tree, u: Tree, v: Tree, space: nat, a: nat, b: nat, c: nat, leaf: nat)
    requires a <= b <= c && Updated(t, u, space, a, b, leaf) && Updated(u, v, space, b, c, leaf)
    ensures Updated(t, v, space, a, c, leaf)
  {
    forall sp: nat, x: nat {:trigger v.At(sp, x)} | sp < |t.roots| && x < Pages(t.levels)
      ensures if sp == space && a <= x < c then v.At(sp, x).section == leaf else v.At(sp, x) == t.At(sp, x)
    {
      assert u.At(sp, x) == u.At(sp, x);
    }
  }

  lemma OutsideTrans(t: Tree, u: Tree, v: Tree, lp: Slot, l1: Slot, k1: int, level: int)
    requires Outside(t, u, lp, level) && Outside(u, v, l1, k1) && k1 <= level
    requires t.HasSlot(l1) ==> l1 == lp || t.KeyAt(l1).level < level
    ensures Outside(t, v, lp, level)
  {
    hide Tree.Live;
    forall o | t.HasSlot(o) && t.KeyAt(o).level >= level && o != lp
      ensures SlotKept(t, v, o)
    {
      assert SlotKept(t, u, o);
      assert u.KeyAt(o) == t.KeyAt(o);
      assert SlotKept(u, v, o);
    }
    forall p: nat {:trigger v.Live(p)} | p < |t.keys| && t.keys[p].level > level && t.Live(p)
      ensures v.Live(p)
    {
      assert u.Live(p);
    }
  }

  // Page ranges and the number of nodes they need.

  function EndOf(k: Key): int
    requires k.level >= -1
  {
    (k.prefix + 1) * Pages(k.level + 1)
  }

  /** The most nodes that setting [index, index + nb) below slot `k` can allocate: a range that reaches
      neither end of the slot may split twice at every level below, any other range only once. */
  function Cap(k: Key, index: nat, nb: nat): int
    requires k.level >= -1
  {
    if index % Pages(k.level + 1) == 0 || index + nb >= EndOf(k) then k.level + 1 else 2 * k.level + 1
  }

  function StepCap(k: Key, s: nat, index: nat, nb: nat): int
    requires k.level >= 0
  {
    if index % Pages(k.level) == 0 && nb >= Pages(k.level) then 0 else Cap(k.Child(s), index, nb)
  }

  lemma CoversRange(k: Key, x: nat)
    requires k.level >= -1
    ensures Covers(k, x) <==> k.prefix * Pages(k.level + 1) <= x < EndOf(k)
  {
    var d := Pages(k.level + 1);
    assert EndOf(k) == k.prefix * d + d;
    if k.prefix * d <= x < EndOf(k) {
      DivIs(x, d, k.prefix);
    }
    DivBounds(x, d);
  }

  lemma ChildEnd(k: Key, s: nat)
    requires k.level >= 0 && s < L2_SIZE
    ensures EndOf(k.Child(s)) == k.Child(s + 1).prefix * Pages(k.level)
    ensures EndOf(k.Child(s)) <= EndOf(k)
    ensures s == L2_SIZE - 1 ==> EndOf(k.Child(s)) == EndOf(k)
  {
    var d := Pages(k.level);
    var q := k.prefix * L2_SIZE + s + 1;
    assert (k.prefix + 1) * (L2_SIZE * d) == ((k.prefix + 1) * L2_SIZE) * d;
    if q < (k.prefix + 1) * L2_SIZE {
      MulLess(q, (k.prefix + 1) * L2_SIZE, d);
    }
  }

  ghost predicate NoBigLeaf(t: Tree, k: Key, index: nat, nb: nat) {
    && k.space < |t.roots|
    && forall x: nat {:trigger t.At(k.space, x)} | index <= x < index + nb && Covers(k, x) :: !t.At(k.space, x).big
  }

  lemma NoBigLeafBelow(t: Tree, u: Tree, k: Key, s: nat, index0: nat, nb0: nat, index: nat, nb: nat, leaf: nat)
    requires k.level >= 0 && s < L2_SIZE && index0 <= index && index + nb <= index0 + nb0 && SpanOk(k, t.levels)
    requires NoBigLeaf(t, k, index0, nb0) && Updated(t, u, k.space, index0, index, leaf)
    ensures NoBigLeaf(u, k.Child(s), index, nb)
  {
    forall x: nat {:trigger u.At(k.space, x)} | index <= x < index + nb && Covers(k.Child(s), x)
      ensures !u.At(k.space, x).big
    {
      CoversChild(k, s, x);
      CoveredInSpan(t, k, x);
      assert t.At(k.space, x) == t.At(k.space, x);
    }
  }

  /** The cursor of the slot loop: inside slot `s`, and at its start once it has moved on. */
  ghost predicate AtSlot(k: Key, s: nat, s0: nat, index0: nat, index: nat, nb: nat)
    requires k.level >= 0 && s <= L2_SIZE
  {
    && (s == s0 ==> index == index0)
    && (nb > 0 && s < L2_SIZE ==> Covers(k.Child(s), index))
    && (nb > 0 && s > s0 ==> index == k.Child(s).prefix * Pages(k.level))
    && (nb > 0 && s == L2_SIZE ==> index == EndOf(k))
  }

  /** Nodes allocated so far by the slot loop. */
  ghost predicate Spent(k: Key, s: nat, s0: nat, index0: nat, nb0: nat, nb: nat, count: int)
    requires k.level >= 0
  {
    && (nb > 0 ==> count <= 1 + if s > s0 && index0 % Pages(k.level) != 0 then k.level else 0)
    && (nb == 0 ==> count <= Cap(k, index0, nb0))
  }

  lemma CapPositive(k: Key, index: nat, nb: nat)
    requires k.level >= 0
    ensures 1 <= Cap(k, index, nb) <= 2 * k.level + 1
  {
  }

  lemma AlignedBelow(index: nat, level: nat)
    requires index % Pages(level + 1) == 0
    ensures index % Pages(level) == 0
  {
    var d := Pages(level);
    var q := index / (L2_SIZE * d);
    DivBounds(index, L2_SIZE * d);
    assert index == (q * L2_SIZE) * d;
    DivIs(index, d, q * L2_SIZE);
  }

  /** The counting behind the allocation bound, free of the tree: `top`, `here0` and `here` say that the
      start of the range is aligned to the whole slot, and that the start and the cursor are aligned to
      one subslot of `d` pages; `end` and `subEnd` are the ends of the slot and of the subslot. */
  lemma CapCount(level: nat, first: bool, top: bool, here0: bool, here: bool, d: int, end: int, subEnd: int,
                 index0: int, nb0: int, index: int, nb: int, count: int, cap: int, subCap: int)
    requires nb > 0 && index + nb == index0 + nb0 && d > 0 && subEnd <= end && index < subEnd
    requires first ==> index == index0 && here == here0
    requires !first ==> here
    requires top ==> here0
    requires level == 0 ==> here && d == 1
    requires here ==> index + d == subEnd
    requires count <= 1 + if !first && !here0 then level else 0
    requires cap == if top || index0 + nb0 >= end then level + 1 else 2 * level + 1
    requires subCap == if here && nb >= d then 0
                       else if here || index + nb >= subEnd then level
                       else 2 * level - 1
    ensures count + subCap <= cap
    ensures index + nb > subEnd ==> count + subCap <= 1 + if !here0 then level else 0
  {
  }

  /** One more slot stays inside the allocation bound. */
  lemma CapBelow(k: Key, s: nat, s0: nat, index0: nat, nb0: nat, index: nat, nb: nat, count: int)
    requires k.level >= 0 && s0 <= s < L2_SIZE && nb > 0 && index + nb == index0 + nb0
    requires AtSlot(k, s, s0, index0, index, nb) && Spent(k, s, s0, index0, nb0, nb, count)
    ensures count + StepCap(k, s, index, nb) <= Cap(k, index0, nb0)
    ensures index + nb > EndOf(k.Child(s)) ==>
      count + StepCap(k, s, index, nb) <= 1 + if index0 % Pages(k.level) != 0 then k.level else 0
  {
    var d := Pages(k.level);
    ChildEnd(k, s);
    CoversRange(k.Child(s), index);
    var here := index % d == 0;
    if index0 % Pages(k.level + 1) == 0 {
      AlignedBelow(index0, k.level);
    }
    if s > s0 {
      DivIs(index, d, k.Child(s).prefix);
    }
    if here {
      SlotRange(k, s, index);
    }
    assert k.level == 0 ==> d == 1 && here;
    CapCount(k.level, s == s0, index0 % Pages(k.level + 1) == 0, index0 % d == 0, here, d, EndOf(k), EndOf(k.Child(s)),
             index0, nb0, index, nb, count, Cap(k, index0, nb0), StepCap(k, s, index, nb));
  }

  lemma SlotRange(k: Key, s: nat, index: nat)
    requires k.level >= 0 && s < L2_SIZE && Covers(k.Child(s), index) && index % Pages(k.level) == 0
    ensures index == k.Child(s).prefix * Pages(k.level) && index + Pages(k.level) == EndOf(k.Child(s))
    ensures forall x: nat :: index <= x < index + Pages(k.level) <==> Covers(k.Child(s), x)
  {
    var d := Pages(k.level);
    DivBounds(index, d);
    assert EndOf(k.Child(s)) == k.Child(s).prefix * d + d;
    forall x: nat
      ensures index <= x < index + d <==> Covers(k.Child(s), x)
    {
      CoversRange(k.Child(s), x);
    }
  }

  lemma NextSlot(k: Key, s: nat, s0: nat, index0: nat, nb0: nat, before: nat, left: nat, index: nat, nb: nat,
                 count: int, count': int)
    requires k.level >= 0 && s0 <= s < L2_SIZE && left > 0 && index + nb == before + left == index0 + nb0
    requires AtSlot(k, s, s0, index0, before, left) && Spent(k, s, s0, index0, nb0, left, count)
    requires index == before + Min(left, EndOf(k.Child(s)) - before)
    requires count' <= count + StepCap(k, s, before, left)
    ensures AtSlot(k, s + 1, s0, index0, index, nb) && Spent(k, s + 1, s0, index0, nb0, nb, count')
    ensures before <= index <= EndOf(k)
  {
    hide Cap, StepCap;
    CapBelow(k, s, s0, index0, nb0, before, left, count);
    ChildEnd(k, s);
    CoversRange(k.Child(s), before);
    if nb > 0 && s + 1 < L2_SIZE {
      DivIs(index, Pages(k.level), k.Child(s + 1).prefix);
    }
  }

  lemma SlotsDone(k: Key, s: nat, s0: nat, index0: nat, nb0: nat, index: nat, nb: nat, count: int)
    requires k.level >= 0 && s0 <= s <= L2_SIZE && index + nb == index0 + nb0 && index0 <= index <= EndOf(k)
    requires AtSlot(k, s, s0, index0, index, nb) && Spent(k, s, s0, index0, nb0, nb, count)
    requires nb == 0 || s == L2_SIZE
    ensures index == index0 + Min(nb0, EndOf(k) - index0)
    ensures count <= Cap(k, index0, nb0)
  {
  }

  lemma SlotsStart(k: Key, index0: nat, nb0: nat, count: int)
    requires k.level >= 0 && Covers(k, index0) && count <= 1
    ensures var s := index0 / Pages(k.level) % L2_SIZE;
      AtSlot(k, s, s, index0, index0, nb0) && Spent(k, s, s, index0, nb0, nb0, count)
    ensures index0 <= EndOf(k)
  {
    CapPositive(k, index0, nb0);
    CoversRange(k, index0);
    CoversChild(k, index0 / Pages(k.level) % L2_SIZE, index0);
  }

  lemma SameMapUpdated(t: Tree, t': Tree, space: nat, index0: nat, leaf: nat)
    requires SameMap(t, t')
    ensures Updated(t, t', space, index0, index0, leaf)
  {
  }

  lemma SlotInside(k: Key, s: nat, s0: nat, index0: nat, index: nat, nb: nat)
    requires k.level >= 0 && s < L2_SIZE && nb > 0 && AtSlot(k, s, s0, index0, index, nb)
    ensures Covers(k.Child(s), index)
  {
  }

  lemma SlotSpan(t: Tree, at: Slot)
    requires t.Valid() && t.HasSlot(at) && t.KeyAt(at).level >= 0
    ensures SpanOk(t.KeyAt(at), t.levels)
  {
    KeySpan(t, at);
  }

  lemma NextOutside(t: Tree, u: Tree, v: Tree, lp: Slot, p: nat, s: nat, level: nat)
    requires Outside(t, u, lp, level) && Outside(u, v, In(p, s), level - 1)
    requires p < |u.keys| && u.keys[p].level == level
    ensures Outside(t, v, lp, level)
  {
    hide Tree.Live;
    OutsideTrans(t, u, v, lp, In(p, s), level - 1, level);
  }

  /** The node that hangs off a live slot is live. */
  lemma ChildLive(t: Tree, at: Slot)
    requires t.Valid() && t.HasSlot(at) && t.SlotLive(at) && !t.Get(at).isLeaf && t.Get(at).ptr < |t.nodes|
    ensures t.Live(t.Get(at).ptr) && t.keys[t.Get(at).ptr] == t.KeyAt(at)
  {
    hide Tree.Distinct, Tree.Linked, Tree.Parented;
    var c := t.Get(at).ptr;
    assert t.EntryOk(t.Get(at), t.KeyAt(at));
    forall x: nat {:trigger Covers(t.keys[c], x)} | Covers(t.keys[c], x)
      ensures t.Enters(t.roots[t.keys[c].space], t.levels - 1, x, c)
    {
      if at.In? {
        var p := at.node;
        CoversChild(t.keys[p], at.slot, x);
        assert Covers(t.keys[p], x);
        CoveredInSpan(t, t.keys[p], x);
        RootEntry(t, t.keys[p].space, x);
        EntersBelow(t, t.roots[t.keys[p].space], t.keys[p].space, t.levels - 1, x, p, c);
      }
    }
  }

  lemma StillPaged(t: Tree, p: nat, s: nat, index: nat, nb: nat)
    requires t.Valid() && p < |t.nodes| && s < L2_SIZE && t.Live(p) && t.keys[p].level > 0
    requires nb > 0 && Covers(t.keys[p].Child(s), index) && NoBigLeaf(t, t.keys[p].Child(s), index, nb)
    ensures !t.nodes[p][s].isLeaf
  {
    assert !t.At(t.keys[p].space, index).big;
    SlotNotLeaf(t, p, s, index);
  }

  lemma OutsideLive(t: Tree, t': Tree, lp: Slot, level: int, p: nat)
    requires Outside(t, t', lp, level) && p < |t.keys| && t.keys[p].level > level && t.Live(p)
    ensures p < |t'.keys| && t'.Live(p) && t'.keys[p] == t.keys[p]
  {
  }

  /** A whole range may be set from the root of its space, and 2 * levels - 1 new nodes are enough for it. */
  lemma RootReady(t: Tree, space: nat, index: nat, nb: nat)
    requires t.Valid() && space < |t.roots| && index < Pages(t.levels) && index + nb <= Pages(t.levels)
    requires forall x: nat | index <= x < index + nb :: !t.At(space, x).big
    ensures t.HasSlot(Root(space)) && t.SlotLive(Root(space)) && !t.Get(Root(space)).isLeaf && t.levels > 0
    ensures t.KeyAt(Root(space)) == Key(space, t.levels - 1, 0)
    ensures var k := Key(space, t.levels - 1, 0);
      Covers(k, index) && NoBigLeaf(t, k, index, nb) && 0 < Cap(k, index, nb) <= 2 * t.levels - 1 &&
      EndOf(k) == Pages(t.levels)
  {
    var k := Key(space, t.levels - 1, 0);
    assert t.KeyAt(Root(space)) == k;
    CoversRange(k, index);
    CapPositive(k, index, nb);
  }

  class PhysPageMap {
    const levels: nat
    var roots: seq<Entry>
    var nodes: seq<Node>
    var capacity: nat
    ghost var keys: seq<Key>

    ghost function T(): Tree
      reads this
    {
      Tree(levels, roots, nodes, keys)
    }

    constructor (levels: nat, spaces: nat)
      requires levels > 0
      ensures T().Valid() && this.levels == levels && |roots| == spaces && nodes == []
      ensures fresh(this)
    {
      this.levels := levels;
      roots := seq(spaces, _ => EMPTY);
      nodes := [];
      keys := [];
      capacity := 0;
    }

    method NodeReserve(count: nat)
      modifies this`capacity
      ensures |nodes| + count <= capacity
      ensures if |nodes| + count <= old(capacity) then capacity == old(capacity)
              else capacity >= 16 && capacity >= 2 * old(capacity) &&
                   (capacity > 16 && capacity > 2 * old(capacity) ==> capacity == |nodes| + count)
    {
      if |nodes| + count > capacity {
        capacity := Max(capacity * 2, 16);
        capacity := Max(capacity, |nodes| + count);
      }
    }

    method GetEntry(at: Slot) returns (e: Entry)
      requires T().HasSlot(at)
      ensures e == T().Get(at)
    {
      match at
      case Root(space) => e := roots[space];
      case In(j, s) => e := nodes[j][s];
    }

    method PutEntry(at: Slot, e: Entry)
      requires T().HasSlot(at)
      modifies this
      ensures T() == old(T()).Put(at, e) && capacity == old(capacity)
    {
      match at
      case Root(space) => roots := roots[space := e];
      case In(j, s) => nodes := nodes[j := nodes[j][s := e]];
    }

    /** Allocate the node for an empty slot.  The two `requires` on its index are the source's assertions. */
    method NodeAlloc(lp: Slot, level: nat)
      requires CanGrow(T(), lp) && T().KeyAt(lp).level == level && |nodes| != NODE_NIL && |nodes| < capacity
      modifies this
      ensures T() == Grown(old(T()), lp) && capacity == old(capacity)
    {
      ghost var k := T().KeyAt(lp);
      var ret := |nodes|;
      var n := seq(L2_SIZE, _ => EMPTY);
      if level == 0 {
        n := seq(L2_SIZE, _ => Entry(true, UNASSIGNED));
      }
      assert n == Fresh(level);
      nodes := nodes + [n];
      keys := keys + [k];
      PutEntry(lp, Entry(false, ret));
    }

    /** The node below slot `lp`, allocated on first use.  It is not `ok` when the index of a new node would
        be the nil index. */
    method EnsureNode(lp: Slot, level: nat) returns (ok: bool, p: nat)
      requires T().Valid() && T().HasSlot(lp) && T().KeyAt(lp).level == level && T().SlotLive(lp)
      requires !T().Get(lp).isLeaf && |nodes| < capacity
      modifies this
      ensures ok ==> T().Valid() && p < |nodes| && |keys| == |nodes| && keys[p] == old(T()).KeyAt(lp) && T().Live(p)
      ensures ok ==> SameMap(old(T()), T()) && Outside(old(T()), T(), lp, level)
      ensures |nodes| <= old(|nodes|) + 1 && capacity == old(capacity)
      ensures !ok ==> |nodes| == old(|nodes|) == NODE_NIL
    {
      ghost var t0 := T();
      var e := GetEntry(lp);
      ok, p := true, e.ptr;
      if !e.isLeaf && e.ptr == NODE_NIL {
        if |nodes| == NODE_NIL {
          return false, p;
        }
        GrownValid(t0, lp);
        GrownIsLive(t0, lp);
        GrownOutside(t0, lp);
        p := |nodes|;
        NodeAlloc(lp, level);
      } else {
        assert t0.EntryOk(t0.Get(lp), t0.KeyAt(lp));
        ChildLive(t0, lp);
      }
    }

    /** phys_page_set_level: set as much of [index0, index0 + nb0) as lies below slot `lp`. */
    method SetLevel(lp: Slot, index0: nat, nb0: nat, leaf: nat, level: nat) returns (ok: bool, index: nat, nb: nat)
      requires T().Valid() && T().HasSlot(lp) && T().KeyAt(lp).level == level && T().SlotLive(lp)
      requires !T().Get(lp).isLeaf && Covers(T().KeyAt(lp), index0)
      requires NoBigLeaf(T(), T().KeyAt(lp), index0, nb0)
      requires |nodes| + Cap(T().KeyAt(lp), index0, nb0) <= capacity
      modifies this
      ensures capacity == old(capacity)
      ensures ok ==> T().Valid() && Outside(old(T()), T(), lp, level)
      ensures ok ==> index == index0 + Min(nb0, EndOf(old(T()).KeyAt(lp)) - index0) && index + nb == index0 + nb0
      ensures ok ==> Updated(old(T()), T(), old(T()).KeyAt(lp).space, index0, index, leaf)
      ensures ok ==> |nodes| <= old(|nodes|) + Cap(old(T()).KeyAt(lp), index0, nb0)
      ensures !ok ==> NODE_NIL == |nodes| < old(|nodes|) + Cap(old(T()).KeyAt(lp), index0, nb0)
      decreases level, 1
    {
      hide Tree.Valid, Tree.Live, Tree.At, Tree.KeyAt, Tree.SlotLive, Tree.HasSlot, Tree.Get, Tree.Walk, SpanOk,
        Updated, Outside, NoBigLeaf, Covers, Pages, EndOf, SameMap, Cap, StepCap, AtSlot, Spent;
      ghost var t0 := T();
      ghost var k := T().KeyAt(lp);
      CapPositive(k, index0, nb0);
      SlotSpan(t0, lp);
      index, nb := index0, nb0;
      var p;
      ok, p := EnsureNode(lp, level);
      if !ok {
        return;
      }
      SameMapUpdated(t0, T(), k.space, index0, leaf);
      SlotsStart(k, index0, nb0, |nodes| - |t0.nodes|);
      var step := Pages(level);
      var s := index / step % L2_SIZE;
      ghost var s0 := s;
      while nb != 0 && s < L2_SIZE
        invariant T().Valid() && p < |nodes| && |keys| == |nodes| && keys[p] == k && T().Live(p)
        invariant capacity == old(capacity)
        invariant Outside(t0, T(), lp, level) && Updated(t0, T(), k.space, index0, index, leaf)
        invariant index + nb == index0 + nb0 && index0 <= index <= EndOf(k)
        invariant s0 <= s <= L2_SIZE && AtSlot(k, s, s0, index0, index, nb)
        invariant Spent(k, s, s0, index0, nb0, nb, |nodes| - |t0.nodes|)
      {
        ghost var u, before, left := T(), index, nb;
        NoBigLeafBelow(t0, u, k, s, index0, nb0, index, nb, leaf);
        CapBelow(k, s, s0, index0, nb0, index, nb, |nodes| - |t0.nodes|);
        SlotInside(k, s, s0, index0, index, nb);
        ok, index, nb := SetSlot(p, s, index, nb, leaf, level);
        if !ok {
          return;
        }
        NextSlot(k, s, s0, index0, nb0, before, left, index, nb, |u.nodes| - |t0.nodes|, |nodes| - |t0.nodes|);
        UpdatedTrans(t0, u, T(), k.space, index0, before, index, leaf);
        NextOutside(t0, u, T(), lp, p, s, level);
        s := s + 1;
      }
      SlotsDone(k, s, s0, index0, nb0, index, nb, |nodes| - |t0.nodes|);
    }

    /** One slot of the loop: a leaf if the range covers all its pages, else one level further down. */
    method SetSlot(p: nat, s: nat, index0: nat, nb0: nat, leaf: nat, level: nat) returns (ok: bool, index: nat, nb: nat)
      requires T().Valid() && p < |nodes| && |keys| == |nodes| && keys[p].level == level && T().Live(p) && s < L2_SIZE
      requires nb0 > 0 && Covers(keys[p].Child(s), index0)
      requires NoBigLeaf(T(), keys[p].Child(s), index0, nb0)
      requires |nodes| + StepCap(keys[p], s, index0, nb0) <= capacity
      modifies this
      ensures capacity == old(capacity)
      ensures ok ==> T().Valid() && p < |nodes| && |keys| == |nodes| && keys[p] == old(keys[p]) && T().Live(p)
      ensures ok ==> index == index0 + Min(nb0, EndOf(old(keys[p]).Child(s)) - index0) && index + nb == index0 + nb0
      ensures ok ==> Updated(old(T()), T(), old(keys[p]).space, index0, index, leaf)
      ensures ok ==> Outside(old(T()), T(), In(p, s), level - 1)
      ensures ok ==> |nodes| <= old(|nodes|) + StepCap(old(keys[p]), s, index0, nb0)
      ensures !ok ==> NODE_NIL == |nodes| < old(|nodes|) + StepCap(old(keys[p]), s, index0, nb0)
      decreases level, 0
    {
      hide Updated, Outside, Tree.Live, Tree.At, Tree.Walk, Tree.Distinct, Tree.Linked, Tree.Parented, Tree.EntriesOk,
        Tree.Spanned, EndOf, NoBigLeaf, Covers;
      ok, index, nb := true, index0, nb0;
      var step := Pages(level);
      if index % step == 0 && nb >= step {
        SlotRange(keys[p], s, index);
        PutLeaf(T(), p, s, leaf, index, index + step);
        PutEntry(In(p, s), Entry(true, leaf));
        index := index + step;
        nb := nb - step;
      } else {
        StillPaged(T(), p, s, index, nb);
        ghost var t0 := T();
        ok, index, nb := SetLevel(In(p, s), index, nb, leaf, level - 1);
        if ok {
          OutsideLive(t0, T(), In(p, s), level - 1, p);
        }
      }
    }

    /** phys_page_set: send the pages [index, index + nb) of a space to section `leaf` and no other page
        anywhere.  The node array is asked for 3 * levels nodes, and 2 * levels - 1 always suffice, so that it
        is not `ok` only where an index would be the nil index. */
    method PageSet(space: nat, index: nat, nb: nat, leaf: nat) returns (ok: bool)
      requires T().Valid() && space < |roots| && index < Pages(levels) && index + nb <= Pages(levels)
      requires forall x: nat | index <= x < index + nb :: !T().At(space, x).big
      modifies this
      ensures ok ==> T().Valid() && Updated(old(T()), T(), space, index, index + nb, leaf)
      ensures ok ==> |nodes| <= old(|nodes|) + 2 * levels - 1
      ensures !ok ==> NODE_NIL == |nodes| < old(|nodes|) + 2 * levels - 1
    {
      hide Tree.Valid, Tree.Live, Tree.At, Tree.KeyAt, Tree.SlotLive, Tree.HasSlot, Tree.Get, Tree.Walk, Updated,
        Outside, NoBigLeaf, Covers, Pages, EndOf, Cap;
      NodeReserve(3 * levels);
      RootReady(T(), space, index, nb);
      var done, _, _ := SetLevel(Root(space), index, nb, leaf, levels - 1);
      ok := done;
    }

    /** phys_page_find: the section for a page. */
    method PageFind(space: nat, index: nat) returns (section: nat)
      requires T().Valid() && space < |roots| && index < Pages(levels)
      ensures section == T().At(space, index).section
    {
      hide Tree.Linked, Tree.Parented, Tree.Distinct, Tree.Spanned, Pages;
      var lp := roots[space];
      var i := levels - 1;
      RootEntry(T(), space, index);
      while i >= 0 && !lp.isLeaf
        invariant -1 <= i < levels
        invariant T().EntryOk(lp, Key(space, i, index / Pages(i + 1)))
        invariant T().Walk(lp, i, index) == T().At(space, index)
      {
        if lp.ptr == NODE_NIL {
          return UNASSIGNED;
        }
        StepDown(T(), lp, space, i, index);
        lp := nodes[lp.ptr][index / Pages(i) % L2_SIZE];
        i := i - 1;
      }
      section := lp.ptr;
    }

    /** Every dispatch's mem_begin in turn: all roots emptied, all nodes given back. */
    method Begin()
      requires T().Valid()
      modifies this
      ensures T().Valid() && |roots| == old(|roots|) && nodes == []
      ensures forall sp: nat, x: nat | sp < |roots| :: T().At(sp, x) == Hit(UNASSIGNED, false)
    {
      nodes, keys := [], [];
      roots := seq(|roots|, _ => EMPTY);
    }
  }
}
