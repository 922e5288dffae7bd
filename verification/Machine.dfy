/** The whole of guest memory over any run of region calls: the graph, the maps of every address space, the page
    tables of the dispatch and the slots of KVM (memory.c, exec.c and kvm-all.c). */
module Machine {
  import opened Prelude
  import opened RegionGraph
  import opened FlatViews
  import opened TopologyDiff
  import opened PhysMap
  import opened Dispatch
  import opened Memory
  import opened PhysicalMemory
  import opened KvmSlots

  datatype Op =
    | Begin
    | Commit
    | SetEnabled(mr: RegionId, enabled: bool)
    | SetLog(mr: RegionId, log: bool, client: nat)
    | SetReadonly(mr: RegionId, readonly: bool)
    | SetReadable(mr: RegionId, readable: bool)
    | SetAliasOffset(mr: RegionId, offset: nat)
    | AddSubregion(mr: RegionId, offset: nat, sub: RegionId, mayOverlap: bool, priority: int)
    | DelSubregion(mr: RegionId, sub: RegionId)
    | SetAddress(mr: RegionId, addr: nat)

  /** The part of the memory core that the calls alone decide. */
  datatype Stage = Stage(g: Graph, depth: nat, pending: bool)

  function Linked(g: Graph, op: Op): Graph
    requires op.AddSubregion? && op.mr in g && op.sub in g
  {
    Added(g[op.sub := g[op.sub].(mayOverlap := op.mayOverlap, priority := op.priority)], op.mr, op.offset, op.sub)
  }

  /** What the original asserts of its callers, and that a new link closes no cycle. */
  ghost predicate OpOk(s: Stage, op: Op) {
    match op
    case Begin => true
    case Commit => s.depth > 0
    case SetEnabled(mr, _) => mr in s.g
    case SetLog(mr, _, client) => mr in s.g && client < 8
    case SetReadonly(mr, _) => mr in s.g
    case SetReadable(mr, _) => mr in s.g
    case SetAliasOffset(mr, _) => mr in s.g && s.g[mr].alias.Some?
    case AddSubregion(mr, _, sub, mayOverlap, priority) =>
      && mr in s.g && sub in s.g && mr != sub && s.g[sub].parent.None? && (mayOverlap || priority == 0)
      && Acyclic(Linked(s.g, op))
    case DelSubregion(mr, sub) => mr in s.g && sub in s.g && s.g[sub].parent == Some(mr)
    case SetAddress(mr, _) => mr in s.g
  }

  ghost function NextGraph(s: Stage, op: Op): Graph
    requires OpOk(s, op)
  {
    var g := s.g;
    match op
    case Begin => g
    case Commit => g
    case SetEnabled(mr, enabled) => g[mr := g[mr].(enabled := enabled)]
    case SetLog(mr, log, client) => g[mr := g[mr].(dirtyLogMask := MaskAfter(g[mr].dirtyLogMask, log, client))]
    case SetReadonly(mr, readonly) => g[mr := g[mr].(readonly := readonly)]
    case SetReadable(mr, readable) => g[mr := g[mr].(readable := readable)]
    case SetAliasOffset(mr, offset) => g[mr := g[mr].(aliasOffset := offset)]
    case AddSubregion(_, _, _, _, _) => Linked(g, op)
    case DelSubregion(mr, sub) => Removed(g, mr, sub)
    case SetAddress(mr, addr) =>
      if addr == g[mr].addr then g
      else if g[mr].parent.None? then g[mr := g[mr].(addr := addr)]
      else if g[mr].parent.value in g && g[mr].parent.value != mr then Moved(g, mr, addr)
      else g
  }

  /** The call asks for the maps to be updated. */
  ghost predicate Asks(s: Stage, op: Op)
    requires OpOk(s, op)
  {
    var g := s.g;
    match op
    case Begin => false
    case Commit => false
    case SetEnabled(mr, enabled) => enabled != g[mr].enabled
    case SetLog(mr, _, _) => g[mr].enabled
    case SetReadonly(mr, readonly) => readonly != g[mr].readonly && g[mr].enabled
    case SetReadable(mr, readable) => readable != g[mr].readable && g[mr].enabled
    case SetAliasOffset(mr, offset) => offset != g[mr].aliasOffset && g[mr].enabled
    case AddSubregion(mr, _, sub, _, _) => g[mr].enabled && g[sub].enabled
    case DelSubregion(mr, sub) => g[mr].enabled && g[sub].enabled
    case SetAddress(mr, addr) => MoveAsks(g, mr, addr)
  }

  ghost function Next(s: Stage, op: Op): Stage
    requires OpOk(s, op)
  {
    var depth := if op.Begin? then s.depth + 1 else if op.Commit? then s.depth - 1 else s.depth;
    Stage(NextGraph(s, op), depth, depth > 0 && (s.pending || Asks(s, op)))
  }

  /** The call moves no root that shows something, or an update is asked for or pending already. */
  ghost predicate Noticed(s: Stage, spaces: seq<Space>, op: Op)
    requires OpOk(s, op) && Acyclic(s.g)
  {
    || s.pending || Asks(s, op)
    || match op
       case AddSubregion(_, offset, sub, _, _) => MoveHidden(s.g, spaces, sub, offset)
       case SetAddress(mr, addr) => MoveHidden(s.g, spaces, mr, addr)
       case _ => true
  }

  ghost predicate RunOk(s: Stage, ops: seq<Op>)
    decreases |ops|
  {
    ops != [] ==> OpOk(s, ops[0]) && RunOk(Next(s, ops[0]), ops[1..])
  }

  /** The stage after the first `k` calls. */
  ghost function StageAt(s: Stage, ops: seq<Op>, k: nat): Stage
    requires RunOk(s, ops) && k <= |ops|
    decreases |ops|
  {
    if k == 0 then s else StageAt(Next(s, ops[0]), ops[1..], k - 1)
  }

  lemma {:induction false} StageStep(s: Stage, ops: seq<Op>, k: nat)
    requires RunOk(s, ops) && k < |ops|
    ensures OpOk(StageAt(s, ops, k), ops[k]) && StageAt(s, ops, k + 1) == Next(StageAt(s, ops, k), ops[k])
    decreases |ops|
  {
    hide OpOk, Next;
    if k > 0 {
      StageStep(Next(s, ops[0]), ops[1..], k - 1);
    }
  }

  /** An update is pending, or every map is what rendering the graph afresh would give. */
  ghost predicate Current(s: Stage, spaces: seq<Space>) {
    Acyclic(s.g) && RootsIn(s.g, spaces) && (s.pending || Agree(s.g, spaces))
  }

  /** What one call does to the maps: they are rendered afresh when the outermost level closes with an update asked
      for or pending, and stay as they are otherwise. */
  ghost predicate Remaps(s: Stage, op: Op, before: seq<Space>, after: seq<Space>)
    requires OpOk(s, op)
  {
    var t := Next(s, op);
    && SameRoots(after, before)
    && if t.depth == 0 && (s.pending || Asks(s, op)) then Acyclic(t.g) && RootsIn(t.g, after) && Agree(t.g, after)
       else after == before
  }

  /** Every call of the run is noticed. */
  ghost predicate AllNoticed(s: Stage, spaces: seq<Space>, ops: seq<Op>)
    requires RunOk(s, ops)
    decreases |ops|
  {
    ops != [] ==>
      Acyclic(s.g) && Noticed(s, spaces, ops[0]) && AllNoticed(Next(s, ops[0]), spaces, ops[1..])
  }

  lemma HiddenByRoots(g: Graph, a: seq<Space>, b: seq<Space>, m: RegionId, addr: nat)
    requires Acyclic(g) && m in g && SameRoots(a, b)
    ensures MoveHidden(g, a, m, addr) <==> MoveHidden(g, b, m, addr)
  {
    hide Acyclic, StaysPut;
    if i :| 0 <= i < |a| && a[i].root == Some(m) {
      assert b[i].root == Some(m);
    }
  }

  lemma NoticedByRoots(s: Stage, a: seq<Space>, b: seq<Space>, op: Op)
    requires OpOk(s, op) && Acyclic(s.g) && SameRoots(a, b)
    ensures Noticed(s, a, op) <==> Noticed(s, b, op)
  {
    hide Acyclic, MoveHidden, Asks;
    if op.AddSubregion? {
      HiddenByRoots(s.g, a, b, op.sub, op.offset);
    } else if op.SetAddress? {
      HiddenByRoots(s.g, a, b, op.mr, op.addr);
    }
  }

  /** RAM that fills whole pages. */
  ghost predicate PagedRam(page: nat, rams: map<RegionId, int>, v: seq<FlatRange>)
    requires page > 0
  {
    forall r | r in v && r.mr in rams :: r.addr.start % page == 0 && r.addr.size % page == 0
  }

  /** Whatever the guest reaches through the slots is the RAM that the graph shows there, and it reaches all RAM
      when that fills whole pages. */
  ghost predicate GuestAgrees(page: nat, rams: map<RegionId, int>, t: seq<KvmSlot>, g: Graph, space: Space)
    requires page > 0 && Acyclic(g) && (space.root.Some? ==> space.root.value in g)
  {
    forall x ::
      var o := Visible(g, space.root, x);
      var shown := if o.Some? && o.value.mr in rams then Some(rams[o.value.mr] + o.value.offset) else None;
      (Host(t, x).Some? || PagedRam(page, rams, space.view)) ==> Host(t, x) == shown
  }

  lemma SlotsServe(page: nat, rams: map<RegionId, int>, t: seq<KvmSlot>, g: Graph, space: Space)
    requires page > 0 && Acyclic(g) && (space.root.Some? ==> space.root.value in g)
    requires IsRendering(g, space.root, space.view) && Apart(t) && LiveSet(t) == Table(page, rams, Holding(space.view))
    ensures GuestAgrees(page, rams, t, g, space)
  {
    hide Visible, Acyclic, IsRendering, LiveSet, Table, Apart, Host, Holding;
    forall x
      ensures var o := Visible(g, space.root, x);
        var shown := if o.Some? && o.value.mr in rams then Some(rams[o.value.mr] + o.value.offset) else None;
        (Host(t, x).Some? || PagedRam(page, rams, space.view)) ==> Host(t, x) == shown
    {
      if PagedRam(page, rams, space.view) {
        GuestSeesAllRam(page, rams, t, g, space.root, space.view, x);
      } else if Host(t, x).Some? {
        GuestSeesTheGraph(page, rams, t, g, space.root, space.view, x);
      }
    }
  }

  ghost function StageOf(core: MemoryCore): Stage
    reads core
  {
    Stage(core.regions, core.depth, core.pending)
  }

  /** One call to the memory core. */
  method Call(core: MemoryCore, op: Op) returns (told: seq<seq<Event>>)
    requires core.Sound() && OpOk(StageOf(core), op)
    modifies core
    ensures core.Sound() && StageOf(core) == Next(old(StageOf(core)), op) && Heard(old(core.spaces), core.spaces, told)
    ensures old(core.UpToDate()) ==> (core.UpToDate() <==> Noticed(old(StageOf(core)), old(core.spaces), op))
    ensures Remaps(old(StageOf(core)), op, old(core.spaces), core.spaces)
  {
    hide Acyclic, GraphOk, Agree, Added, Removed, MaskAfter, MoveHidden, Deletions, Additions, Sorted;
    told := [];
    match op
    case Begin =>
      core.TransactionBegin();
      QuietHeard(core.spaces);
    case Commit => told := core.TransactionCommit();
    case SetEnabled(mr, enabled) => told := core.SetEnabled(mr, enabled);
    case SetLog(mr, log, client) => told := core.SetLog(mr, log, client);
    case SetReadonly(mr, readonly) => told := core.SetReadonly(mr, readonly);
    case SetReadable(mr, readable) => told := core.SetReadable(mr, readable);
    case SetAliasOffset(mr, offset) => told := core.SetAliasOffset(mr, offset);
    case AddSubregion(mr, offset, sub, mayOverlap, priority) =>
      told := core.AddSubregion(mr, offset, sub, mayOverlap, priority);
    case DelSubregion(mr, sub) => told := core.DelSubregion(mr, sub);
    case SetAddress(mr, addr) => told := core.SetAddress(mr, addr);
  }

  lemma QuietHeard(spaces: seq<Space>)
    ensures Heard(spaces, spaces, [])
  {
  }

  /** The listeners of the machine: a dispatch for every address space, and KVM for the space `memory`. */
  class Listeners {
    const disp: PhysDispatch
    const kvm: KvmState
    const rams: map<RegionId, int>
    const memory: nat

    /** Newly registered on address spaces that show nothing yet. */
    constructor (page: nat, levels: nat, rams: map<RegionId, int>, memory: nat, ghost spaces: seq<Space>, count: nat)
      requires 0 < page <= 0xffff_ffff && levels > 0 && memory < |spaces| == count
      requires forall i | 0 <= i < |spaces| :: spaces[i].view == []
      ensures Follow(spaces) && this.memory == memory && this.rams == rams && disp.page == page
      ensures fresh(disp) && fresh(disp.pages) && fresh(kvm.slots)
    {
      this.rams := rams;
      this.memory := memory;
      disp := new PhysDispatch(page, rams.Keys, levels, count);
      kvm := new KvmState(page);
      new;
      disp.Begin();
      NothingShown(disp.S(), spaces, disp.ram);
    }

    /** What the listeners hold is what they last heard: every access reaches what the view of its space shows,
        and the slots are the RAM of the view of `memory`. */
    ghost predicate Follow(spaces: seq<Space>)
      reads disp, disp.pages, kvm.slots
    {
      && disp.Valid() && disp.ram == rams.Keys && disp.pages.levels > 0 && Loaded(disp.S(), spaces, disp.ram, |spaces|)
      && kvm.Valid() && kvm.page == disp.page && memory < |spaces|
      && LiveSet(kvm.slots[..]) == Table(kvm.page, rams, Holding(spaces[memory].view))
    }

    /** A table is too small for the views. */
    ghost predicate Overflow(spaces: seq<Space>)
      requires memory < |spaces| && kvm.page > 0
      reads disp, disp.pages
    {
      || disp.Full() || (exists i :: 0 <= i < |spaces| && !Loadable(disp.S(), spaces[i].view))
      || |Table(kvm.page, rams, Holding(spaces[memory].view))| > SLOTS
    }

    method Hear(told: seq<seq<Event>>, ghost before: seq<Space>, ghost after: seq<Space>) returns (ok: bool)
      requires Follow(before) && Heard(before, after, told)
      requires forall i | 0 <= i < |before| :: Sorted(before[i].view)
      requires forall i | 0 <= i < |after| :: Sorted(after[i].view)
      modifies disp, disp.pages, kvm.slots
      ensures ok ==> Follow(after)
      ensures !ok ==> memory < |after| && kvm.page > 0 && Overflow(after)
    {
      hide Deletions, Additions, Loadable, Loaded, Sorted, State.Valid, Fits, Room, Table, LiveSet, Apart, GoodRun,
        NotifyAll, Holding, AllFit, Heard;
      if told == [] {
        NoNews(before, after);
        return true;
      }
      HeardSize(before, after, told);
      HeardAt(before, after, told, memory);
      LoadedSizes(disp.S(), before, disp.ram, |before|);
      TableSize(kvm.slots[..]);
      CommitFits(kvm.page, rams, before[memory].view, after[memory].view);
      ghost var start := disp.S();
      ok := ReloadAll(disp, told, before, after);
      if !ok {
        forall i | 0 <= i < |after|
          ensures Loadable(start, after[i].view) <==> Loadable(disp.S(), after[i].view)
        {
          SameLoadable(start, disp.S(), after[i].view);
        }
      } else {
        ok := kvm.Follow(rams, told[memory], Holding(before[memory].view));
      }
    }
  }

  lemma NoNews(before: seq<Space>, after: seq<Space>)
    requires Heard(before, after, [])
    ensures after == before
  {
  }

  lemma NothingShown(d: Dispatch.State, spaces: seq<Space>, ram: set<RegionId>)
    requires d.Valid() && |d.tree.roots| == |spaces| && forall i | 0 <= i < |spaces| :: spaces[i].view == []
    requires forall sp: nat, x: nat | sp < |d.tree.roots| && d.InSpan(x) :: d.Answer(sp, x) == Reached(Unassigned, x)
    ensures Loaded(d, spaces, ram, |spaces|)
  {
    hide State.Valid, State.Answer;
    Bounds(d);
  }

  /** What one moment of a run can be seen by: the maps, the page tables and the slots. */
  datatype Shot = Shot(spaces: seq<Space>, tables: Dispatch.State, slots: seq<KvmSlot>)

  /** Page tables and slots hold what the maps show. */
  ghost predicate Follows(page: nat, rams: map<RegionId, int>, memory: nat, shot: Shot) {
    && page > 0 && memory < |shot.spaces| && Loaded(shot.tables, shot.spaces, rams.Keys, |shot.spaces|)
    && Apart(shot.slots) && LiveSet(shot.slots) == Table(page, rams, Holding(shot.spaces[memory].view))
  }

  /** Every access through the page tables and every slot agrees with the region graph. */
  ghost predicate Serving(page: nat, rams: map<RegionId, int>, memory: nat, g: Graph, shot: Shot) {
    && page > 0 && Acyclic(g) && RootsIn(g, shot.spaces) && memory < |shot.spaces|
    && PhysicalAgrees(shot.tables, g, shot.spaces, rams.Keys)
    && GuestAgrees(page, rams, shot.slots, g, shot.spaces[memory])
  }

  /** Where the maps are up to date and no update is pending, whoever follows them serves what the graph shows. */
  lemma FollowersServe(page: nat, rams: map<RegionId, int>, memory: nat, s: Stage, shot: Shot)
    requires Follows(page, rams, memory, shot) && Current(s, shot.spaces) && !s.pending
    ensures Serving(page, rams, memory, s.g, shot)
  {
    hide Acyclic, IsRendering, Loaded, RootsIn, Agree, LiveSet, Table, Apart, PhysicalAgrees, GuestAgrees;
    LoadedServes(shot.tables, s.g, shot.spaces, rams.Keys);
    SpaceAgrees(s.g, shot.spaces, memory);
    SlotsServe(page, rams, shot.slots, s.g, shot.spaces[memory]);
  }

  /** The maps of two moments are one call apart. */
  ghost predicate Steps(s: Stage, op: Op, a: Shot, b: Shot) {
    OpOk(s, op) && Remaps(s, op, a.spaces, b.spaces)
  }

  /** The listeners follow the maps, and between transactions they serve what the graph shows, if the maps are up to
      date. */
  ghost predicate Good(page: nat, rams: map<RegionId, int>, memory: nat, s: Stage, shot: Shot) {
    && Follows(page, rams, memory, shot)
    && (s.depth == 0 && Current(s, shot.spaces) ==> Serving(page, rams, memory, s.g, shot))
  }

  class Machine {
    const core: MemoryCore
    const listeners: Listeners

    ghost predicate Valid()
      reads core, listeners.disp, listeners.disp.pages, listeners.kvm.slots
    {
      core.Sound() && listeners.Follow(core.spaces)
    }

    ghost function Now(): Shot
      reads core, listeners.disp, listeners.disp.pages, listeners.kvm.slots
    {
      Shot(core.spaces, listeners.disp.S(), listeners.kvm.slots[..])
    }

    constructor (core: MemoryCore, listeners: Listeners)
      requires core.Sound() && listeners.Follow(core.spaces)
      ensures Valid() && this.core == core && this.listeners == listeners
    {
      this.core := core;
      this.listeners := listeners;
    }

    lemma NowFollows()
      requires Valid()
      ensures Follows(listeners.kvm.page, listeners.rams, listeners.memory, Now())
    {
      hide Loaded, LiveSet, Table, Apart, State.Valid;
    }

    lemma NowCurrent()
      requires core.Sound()
      ensures core.UpToDate() <==> Current(StageOf(core), core.spaces)
      ensures core.depth == 0 ==> !core.pending
    {
      hide Acyclic, GraphOk, Sorted, RootsIn, Agree;
    }

    /** One call, and what the listeners make of it. */
    method Perform(op: Op) returns (ok: bool)
      requires Valid() && OpOk(StageOf(core), op)
      modifies core, listeners.disp, listeners.disp.pages, listeners.kvm.slots
      ensures core.Sound() && StageOf(core) == Next(old(StageOf(core)), op)
      ensures Remaps(old(StageOf(core)), op, old(core.spaces), core.spaces)
      ensures ok ==> Valid()
      ensures !ok ==> listeners.memory < |core.spaces| && listeners.kvm.page > 0 && listeners.Overflow(core.spaces)
      ensures old(core.UpToDate()) ==> (core.UpToDate() <==> Noticed(old(StageOf(core)), old(core.spaces), op))
    {
      hide Acyclic, GraphOk, Sorted, RootsIn, Agree, OpOk, Next, Noticed, Listeners.Follow, Listeners.Overflow, Heard,
        Remaps;
      ghost var before := core.spaces;
      var told := Call(core, op);
      ok := listeners.Hear(told, before, core.spaces);
    }

    /** Any run of calls that overflows no table.  After every call the listeners follow the maps, and between
        transactions they serve what the graph shows, if the maps are up to date.  They are up to date after every
        call exactly when every call of the run is noticed. */
    method Run(ops: seq<Op>) returns (ok: bool, ghost trace: seq<Shot>)
      requires Valid() && core.UpToDate() && RunOk(StageOf(core), ops)
      modifies core, listeners.disp, listeners.disp.pages, listeners.kvm.slots
      ensures core.Sound()
      ensures ok ==> Valid() && StageOf(core) == StageAt(old(StageOf(core)), ops, |ops|)
      ensures ok ==> |trace| == |ops| + 1 && trace[0] == old(Now()) && trace[|ops|] == Now()
      ensures ok ==> forall k | 0 <= k < |ops| ::
        Steps(StageAt(old(StageOf(core)), ops, k), ops[k], trace[k], trace[k + 1])
      ensures ok ==> forall k | 0 <= k <= |ops| ::
        Good(listeners.kvm.page, listeners.rams, listeners.memory, StageAt(old(StageOf(core)), ops, k), trace[k])
      ensures ok ==>
        (AllNoticed(old(StageOf(core)), old(core.spaces), ops) <==>
         forall k | 0 <= k <= |ops| :: Current(StageAt(old(StageOf(core)), ops, k), trace[k].spaces))
      ensures !ok ==> listeners.memory < |core.spaces| && listeners.kvm.page > 0 && listeners.Overflow(core.spaces)
    {
      hide Acyclic, GraphOk, Sorted, RootsIn, Agree, OpOk, Next, Noticed, Listeners.Follow, Listeners.Overflow, Remaps,
        Good, Steps, Current;
      ghost var start, spaces, always := StageOf(core), core.spaces, true;
      trace := [Now()];
      NowCurrent();
      NowGood();
      var i := 0;
      assert ops[0..] == ops;
      while i < |ops|
        invariant i <= |ops| && Valid() && SameRoots(core.spaces, spaces) && (always ==> core.UpToDate())
        invariant RunOk(StageOf(core), ops[i..]) && StageOf(core) == StageAt(start, ops, i)
        invariant |trace| == i + 1 && trace[0] == old(Now()) && trace[i] == Now()
        invariant forall k | 0 <= k < i :: Steps(StageAt(start, ops, k), ops[k], trace[k], trace[k + 1])
        invariant forall k | 0 <= k <= i ::
          Good(listeners.kvm.page, listeners.rams, listeners.memory, StageAt(start, ops, k), trace[k])
        invariant always <==> forall k | 0 <= k <= i :: Current(StageAt(start, ops, k), trace[k].spaces)
        invariant AllNoticed(start, spaces, ops) <==> always && AllNoticed(StageOf(core), spaces, ops[i..])
      {
        assert ops[i..][0] == ops[i] && ops[i..][1..] == ops[i + 1..];
        NoticedByRoots(StageOf(core), core.spaces, spaces, ops[i]);
        StageStep(start, ops, i);
        ok := Perform(ops[i]);
        if !ok {
          return;
        }
        StepIs(StageAt(start, ops, i), ops[i], trace[i], Now());
        NowCurrent();
        NowGood();
        trace := trace + [Now()];
        always := always && core.UpToDate();
        i := i + 1;
      }
      ok := true;
    }

    lemma NowGood()
      requires Valid()
      ensures Good(listeners.kvm.page, listeners.rams, listeners.memory, StageOf(core), Now())
    {
      hide Acyclic, GraphOk, Sorted, RootsIn, Agree, Listeners.Follow, Follows, Serving, Current;
      NowFollows();
      if core.depth == 0 && Current(StageOf(core), core.spaces) {
        FollowersServe(listeners.kvm.page, listeners.rams, listeners.memory, StageOf(core), Now());
      }
    }
  }

  lemma StepIs(s: Stage, op: Op, a: Shot, b: Shot)
    requires OpOk(s, op) && Remaps(s, op, a.spaces, b.spaces)
    ensures Steps(s, op, a, b) && SameRoots(b.spaces, a.spaces)
  {
  }
}
