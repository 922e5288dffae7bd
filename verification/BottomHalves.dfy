/** Bottom halves: a linked list walked while callbacks change it (async.c). */
module BottomHalves {
  import opened Prelude

  datatype Bh = Bh(next: Option<nat>, scheduled: bool, idle: bool, deleted: bool)

  /** The bottom halves that exist, by address. */
  type Heap = map<nat, Bh>

  /** `first` and the `next` pointers run through `list` and through nothing else. */
  ghost predicate Linked(heap: Heap, first: Option<nat>, list: seq<nat>) {
    && (forall i | 0 <= i < |list| :: NodeOk(heap, list, i))
    && Distinct(list) && (forall id | id in heap :: id in list)
    && first == Follower(list, 0)
  }

  ghost predicate NodeOk(heap: Heap, list: seq<nat>, i: nat)
    requires i < |list|
  {
    list[i] in heap && heap[list[i]].next == Follower(list, i + 1)
  }

  ghost predicate Distinct(list: seq<nat>) {
    forall i, j | 0 <= i < j < |list| :: list[i] != list[j]
  }

  function Follower(list: seq<nat>, i: nat): Option<nat> {
    if i < |list| then Some(list[i]) else None
  }

  /** How often a bottom half was asked to run, did run, and had a request withdrawn. */
  datatype Ledger = Ledger(asked: nat, run: nat, dropped: nat) {
    /** Requests that are over and done with. */
    function Settled(): nat {
      run + dropped
    }

    predicate Balances(scheduled: bool) {
      asked == run + dropped + if scheduled then 1 else 0
    }
  }

  ghost predicate AllBalance(heap: Heap, ledger: map<nat, Ledger>) {
    forall id | id in heap :: id in ledger && ledger[id].Balances(heap[id].scheduled)
  }

  /** What a callback does.  A nested poll lists what the callbacks it runs do, in the order they run. */
  datatype Action =
    | New
    | Schedule(id: nat)
    | ScheduleIdle(id: nat)
    | Cancel(id: nat)
    | Delete(id: nat)
    | Poll(callbacks: Callbacks)

  datatype Actions = Nothing | Do(action: Action, rest: Actions)

  datatype Callbacks = NoMore | Next(script: Actions, others: Callbacks)

  function ActionSize(a: Action): nat {
    if a.Poll? then 1 + CallbacksSize(a.callbacks) else 1
  }

  function ActionsSize(s: Actions): nat {
    if s.Do? then 1 + ActionSize(s.action) + ActionsSize(s.rest) else 0
  }

  function CallbacksSize(c: Callbacks): nat {
    if c.Next? then 1 + ActionsSize(c.script) + CallbacksSize(c.others) else 0
  }

  /** Changing flags leaves the list alone. */
  lemma LinkedFlags(heap: Heap, first: Option<nat>, list: seq<nat>, id: nat, bh: Bh)
    requires Linked(heap, first, list) && id in heap && bh.next == heap[id].next
    ensures Linked(heap[id := bh], first, list)
  {
    var after := heap[id := bh];
    forall i | 0 <= i < |list|
      ensures NodeOk(after, list, i)
    {
      assert NodeOk(heap, list, i);
    }
  }

  lemma LinkedNew(heap: Heap, first: Option<nat>, list: seq<nat>, id: nat)
    requires Linked(heap, first, list) && id !in heap
    ensures Linked(heap[id := Bh(first, false, false, false)], Some(id), [id] + list)
  {
    var next, after := [id] + list, heap[id := Bh(first, false, false, false)];
    forall i | 0 <= i < |next|
      ensures next[i] == if i == 0 then id else list[i - 1]
      ensures NodeOk(after, next, i)
      ensures i > 0 ==> next[i] != id
    {
      if i > 0 {
        assert NodeOk(heap, list, i - 1);
      }
    }
  }

  /** The heap after `id` is unlinked and freed, when `prev` points at it. */
  function Unlinked(heap: Heap, prev: Option<nat>, id: nat): Heap
    requires id in heap && (prev.Some? ==> prev.value in heap)
  {
    if prev.Some? then (heap - {id})[prev.value := heap[prev.value].(next := heap[id].next)] else heap - {id}
  }

  function Last(list: seq<nat>): Option<nat> {
    if list == [] then None else Some(list[|list| - 1])
  }

  lemma LinkedAt(heap: Heap, first: Option<nat>, kept: seq<nat>, id: nat, rest: seq<nat>)
    requires Linked(heap, first, kept + [id] + rest)
    ensures id in heap && heap[id].next == Follower(rest, 0) && id !in kept && id !in rest
    ensures if kept == [] then first == Some(id)
            else kept[|kept| - 1] in heap && heap[kept[|kept| - 1]].next == Some(id)
  {
    var all := kept + [id] + rest;
    var at := |kept|;
    assert all[at] == id && NodeOk(heap, all, at);
    assert forall i | 0 <= i < |kept| :: all[i] == kept[i];
    assert forall i | 0 <= i < |rest| :: all[at + 1 + i] == rest[i];
    if kept != [] {
      assert NodeOk(heap, all, at - 1);
    }
  }

  lemma UnlinkedNode(heap: Heap, first: Option<nat>, kept: seq<nat>, id: nat, rest: seq<nat>, i: nat)
    requires Linked(heap, first, kept + [id] + rest) && i < |kept + rest|
    requires id in heap && (kept != [] ==> kept[|kept| - 1] in heap)
    ensures NodeOk(Unlinked(heap, Last(kept), id), kept + rest, i)
  {
    var all, less, at := kept + [id] + rest, kept + rest, |kept|;
    LinkedAt(heap, first, kept, id, rest);
    var j := if i < at then i else i + 1;
    assert less[i] == all[j] && NodeOk(heap, all, j);
    if i + 1 < |less| && i + 1 != at {
      assert less[i + 1] == all[j + 1];
    }
    if kept != [] && i != at - 1 {
      assert all[at - 1] == kept[at - 1] && all[j] != all[at - 1];
    }
  }

  lemma UnlinkedList(kept: seq<nat>, id: nat, rest: seq<nat>)
    requires Distinct(kept + [id] + rest)
    ensures Distinct(kept + rest) && forall x | x in kept + [id] + rest && x != id :: x in kept + rest
  {
    var all, less := kept + [id] + rest, kept + rest;
    forall i | 0 <= i < |less|
      ensures less[i] == all[if i < |kept| then i else i + 1]
    {
    }
  }

  /** Unlinking one element leaves the others as they were. */
  lemma LinkedUnlink(heap: Heap, first: Option<nat>, kept: seq<nat>, id: nat, rest: seq<nat>)
    requires Linked(heap, first, kept + [id] + rest)
    requires id in heap && (kept != [] ==> kept[|kept| - 1] in heap)
    ensures Linked(Unlinked(heap, Last(kept), id), if kept == [] then heap[id].next else first, kept + rest)
  {
    hide NodeOk, Distinct;
    LinkedAt(heap, first, kept, id, rest);
    UnlinkedList(kept, id, rest);
    forall i | 0 <= i < |kept + rest|
      ensures NodeOk(Unlinked(heap, Last(kept), id), kept + rest, i)
    {
      UnlinkedNode(heap, first, kept, id, rest, i);
    }
    assert kept != [] ==> (kept + [id] + rest)[0] == kept[0] == (kept + rest)[0];
  }

  /** `rest` is the tail end of `list`. */
  ghost predicate Ends(list: seq<nat>, rest: seq<nat>) {
    |rest| <= |list| && list[|list| - |rest|..] == rest
  }

  lemma EndsTrans(a: seq<nat>, b: seq<nat>, c: seq<nat>)
    requires Ends(a, b) && Ends(b, c)
    ensures Ends(a, c)
  {
  }

  ghost predicate IsPending(heap: Heap, id: nat) {
    id in heap && heap[id].scheduled && !heap[id].deleted
  }

  /** What time can do: the dead stay dead and do not run again, settled requests stay settled, and a pending
      request stays pending until it is settled. */
  ghost predicate Evolves(heap0: Heap, ledger0: map<nat, Ledger>, heap: Heap, ledger: map<nat, Ledger>) {
    forall id | id in ledger0 :: id in ledger && EvolvesAt(heap0, ledger0[id], heap, ledger[id], id)
  }

  ghost predicate EvolvesAt(heap0: Heap, entry0: Ledger, heap: Heap, entry: Ledger, id: nat) {
    && ((id in heap0 ==> heap0[id].deleted) ==> (id in heap ==> heap[id].deleted) && entry.run == entry0.run)
    && entry0.asked <= entry.asked && entry0.run <= entry.run && entry0.dropped <= entry.dropped
    && (IsPending(heap0, id) ==> entry0.Settled() < entry.Settled() || IsPending(heap, id))
  }

  lemma EvolvesTrans(h0: Heap, l0: map<nat, Ledger>, h1: Heap, l1: map<nat, Ledger>, h2: Heap, l2: map<nat, Ledger>)
    requires Evolves(h0, l0, h1, l1) && Evolves(h1, l1, h2, l2)
    ensures Evolves(h0, l0, h2, l2)
  {
    forall id | id in l0
      ensures id in l2 && EvolvesAt(h0, l0[id], h2, l2[id], id)
    {
      assert EvolvesAt(h0, l0[id], h1, l1[id], id) && EvolvesAt(h1, l1[id], h2, l2[id], id);
    }
  }

  ghost predicate Below(heap: Heap, ledger: map<nat, Ledger>, bound: nat) {
    (forall id | id in heap :: id < bound) && (forall id | id in ledger :: id < bound)
  }

  lemma NothingDies(heap: Heap, ledger: map<nat, Ledger>, list: seq<nat>)
    ensures Evolves(heap, ledger, heap, ledger) && Ends(list, list)
  {
  }

  /** The part of the list a walk has been through. */
  ghost function Seen(list: seq<nat>, rest: seq<nat>): seq<nat> {
    if |rest| <= |list| then list[..|list| - |rest|] else []
  }

  ghost predicate AllSettled(heap0: Heap, ledger0: map<nat, Ledger>, ledger: map<nat, Ledger>, seen: seq<nat>) {
    forall id | id in seen && IsPending(heap0, id) ::
      id in ledger0 && id in ledger && ledger0[id].Settled() < ledger[id].Settled()
  }

  lemma NoneSeen(heap0: Heap, ledger0: map<nat, Ledger>)
    ensures forall list: seq<nat> :: AllSettled(heap0, ledger0, ledger0, Seen(list, list))
  {
  }

  /** One more element of the list has been dealt with. */
  lemma VisitSettles(h0: Heap, l0: map<nat, Ledger>, h1: Heap, l1: map<nat, Ledger>, h2: Heap, l2: map<nat, Ledger>,
                     list: seq<nat>, rest: seq<nat>)
    requires Evolves(h0, l0, h1, l1) && Evolves(h1, l1, h2, l2) && AllBalance(h0, l0)
    requires Ends(list, rest) && rest != [] && AllSettled(h0, l0, l1, Seen(list, rest))
    requires IsPending(h1, rest[0]) ==> rest[0] in l1 && rest[0] in l2 && l1[rest[0]].Settled() < l2[rest[0]].Settled()
    ensures AllSettled(h0, l0, l2, Seen(list, rest[1..]))
  {
    var at := |list| - |rest|;
    assert Seen(list, rest[1..]) == Seen(list, rest) + [rest[0]] by {
      assert list[at] == list[at..][0];
    }
    forall id | id in Seen(list, rest[1..]) && IsPending(h0, id)
      ensures id in l0 && id in l2 && l0[id].Settled() < l2[id].Settled()
    {
      assert EvolvesAt(h0, l0[id], h1, l1[id], id) && EvolvesAt(h1, l1[id], h2, l2[id], id);
    }
  }

  lemma SeenAll(heap0: Heap, first: Option<nat>, ledger0: map<nat, Ledger>, ledger: map<nat, Ledger>, list: seq<nat>,
                rest: seq<nat>)
    requires Linked(heap0, first, list) && Follower(rest, 0) == None
    requires AllSettled(heap0, ledger0, ledger, Seen(list, rest))
    ensures forall id | IsPending(heap0, id) ::
      id in ledger0 && id in ledger && ledger0[id].Settled() < ledger[id].Settled()
  {
    assert Seen(list, rest) == list;
  }

  lemma WalkStart(heap: Heap, first: Option<nat>, list: seq<nat>)
    requires Linked(heap, first, list)
    ensures first == Follower(list, 0)
  {
  }

  /** The element a walk has got to, and the pointer it saves. */
  lemma WalkAt(heap: Heap, first: Option<nat>, list: seq<nat>, rest: seq<nat>)
    requires Linked(heap, first, list) && Ends(list, rest) && rest != []
    ensures rest[0] in heap && heap[rest[0]].next == Follower(rest[1..], 0)
  {
    var at := |list| - |rest|;
    assert list[at] == rest[0] && NodeOk(heap, list, at);
    assert |rest| > 1 ==> list[at + 1] == rest[1];
  }

  /** The list may have grown in front while the walk went on by one element. */
  lemma WalkOn(list: seq<nat>, list1: seq<nat>, list0: seq<nat>, rest: seq<nat>)
    requires Ends(list, list1) && Ends(list1, list0) && Ends(list1, rest) && Ends(list0, rest) && rest != []
    ensures Ends(list, list0) && Ends(list, rest[1..]) && Ends(list0, rest[1..])
  {
    EndsTrans(list, list1, list0);
    EndsTrans(list, list1, rest);
  }

  lemma SplitRest(kept: seq<nat>, rest: seq<nat>, id: nat)
    requires Follower(rest, 0) == Some(id)
    ensures rest != [] && rest[0] == id && kept + rest == kept + [id] + rest[1..] && Last(kept + [id]) == Some(id)
  {
  }

  lemma SweepEnd(heap: Heap, first: Option<nat>, kept: seq<nat>, rest: seq<nat>)
    requires Follower(rest, 0) == None && Linked(heap, first, kept + rest)
    requires forall id | id in kept :: id in heap && !heap[id].deleted
    ensures forall id | id in heap :: !heap[id].deleted
  {
    assert kept + rest == kept;
  }

  lemma SweptOk(heap0: Heap, heap: Heap, ledger: map<nat, Ledger>, bound: nat)
    requires AllBalance(heap0, ledger) && Below(heap0, ledger, bound)
    requires forall id | id in heap :: id in heap0 && heap[id] == heap0[id].(next := heap[id].next) && !heap[id].deleted
    requires forall id | id in heap0 && !heap0[id].deleted :: id in heap
    ensures AllBalance(heap, ledger) && Below(heap, ledger, bound) && Evolves(heap0, ledger, heap, ledger)
    ensures Swept(heap0, heap)
  {
  }

  // What polling does, said of a plain list without pointers.

  /** The bottom halves in order, and the flags of each. */
  datatype Bhs = Bhs(list: seq<nat>, flags: map<nat, Bh>, walking: nat, handedOut: nat) {
    predicate Pending(id: nat) {
      id in flags && flags[id].scheduled && !flags[id].deleted
    }

    function Set(id: nat, bh: Bh): Bhs {
      this.(flags := flags[id := bh])
    }
  }

  function Bare(heap: Heap): map<nat, Bh> {
    map id | id in heap :: heap[id].(next := None)
  }

  /** One thing a callback does; a bottom half that does not exist cannot be named. */
  ghost function Act(s: Bhs, a: Action): Bhs
    decreases ActionSize(a), 1
  {
    match a
    case New =>
      Bhs([s.handedOut] + s.list, s.flags[s.handedOut := Bh(None, false, false, false)], s.walking, s.handedOut + 1)
    case Schedule(id) =>
      if id in s.flags && !s.flags[id].scheduled then s.Set(id, s.flags[id].(scheduled := true, idle := false)) else s
    case ScheduleIdle(id) =>
      if id in s.flags && !s.flags[id].scheduled then s.Set(id, s.flags[id].(scheduled := true, idle := true)) else s
    case Cancel(id) =>
      if id in s.flags then s.Set(id, s.flags[id].(scheduled := false)) else s
    case Delete(id) =>
      if id in s.flags then s.Set(id, s.flags[id].(scheduled := false, deleted := true)) else s
    case Poll(callbacks) => PollAll(s, callbacks).0
  }

  /** A whole callback. */
  ghost function Call(s: Bhs, script: Actions): Bhs
    decreases ActionsSize(script), 2
  {
    if script.Do? then Call(Act(s, script.action), script.rest) else s
  }

  /** A pending bottom half has its request taken and runs the next callback; no other does. */
  ghost function VisitOne(s: Bhs, id: nat, cbs: Callbacks): (r: (Bhs, Callbacks))
    ensures CallbacksSize(r.1) <= CallbacksSize(cbs)
    decreases CallbacksSize(cbs), 3
  {
    if !s.Pending(id) then (s, cbs)
    else
      var t := s.Set(id, s.flags[id].(scheduled := false, idle := false));
      if cbs.Next? then (Call(t, cbs.script), cbs.others) else (t, cbs)
  }

  /** Visit the given bottom halves in order, and say whether one of them had work that is not idle. */
  ghost function Walk(s: Bhs, rest: seq<nat>, cbs: Callbacks): (Bhs, bool)
    decreases CallbacksSize(cbs), 4, |rest|
  {
    if rest == [] then (s, false)
    else
      var one := VisitOne(s, rest[0], cbs);
      var more := Walk(one.0, rest[1..], one.1);
      (more.0, (s.Pending(rest[0]) && !s.flags[rest[0]].idle) || more.1)
  }

  /** A poll visits the bottom halves that are there when it begins; the outermost one then drops the deleted. */
  ghost function PollAll(s: Bhs, cbs: Callbacks): (Bhs, bool)
    decreases CallbacksSize(cbs), 5
  {
    var w := Walk(s.(walking := s.walking + 1), s.list, cbs);
    var t := w.0.(walking := s.walking);
    (if s.walking == 0 then t.(list := Living(t.list, t.flags), flags := Alive(t.flags)) else t, w.1)
  }

  ghost function Living(list: seq<nat>, flags: map<nat, Bh>): seq<nat> {
    if list == [] then []
    else (if list[0] in flags && flags[list[0]].deleted then [] else [list[0]]) + Living(list[1..], flags)
  }

  ghost function Alive(flags: map<nat, Bh>): map<nat, Bh> {
    map id | id in flags && !flags[id].deleted :: flags[id]
  }

  lemma BareSet(heap: Heap, id: nat, bh: Bh)
    ensures Bare(heap[id := bh]) == Bare(heap)[id := bh.(next := None)]
  {
  }

  lemma BareAt(heap: Heap, id: nat)
    requires id in heap
    ensures id in Bare(heap) && Bare(heap)[id] == heap[id].(next := None)
  {
  }

  lemma PendingBare(heap: Heap, list: seq<nat>, walking: nat, handedOut: nat, id: nat)
    requires id in heap
    ensures var s := Bhs(list, Bare(heap), walking, handedOut);
      && (s.Pending(id) <==> IsPending(heap, id)) && id in s.flags && s.flags[id].idle == heap[id].idle
  {
  }

  lemma NoRest(rest: seq<nat>)
    requires Follower(rest, 0) == None
    ensures rest == []
  {
  }

  lemma WalkNext(s: Bhs, rest: seq<nat>, cbs: Callbacks)
    ensures rest == [] ==> Walk(s, rest, cbs) == (s, false)
    ensures rest != [] ==>
      var one := VisitOne(s, rest[0], cbs);
      var more := Walk(one.0, rest[1..], one.1);
      Walk(s, rest, cbs) == (more.0, (s.Pending(rest[0]) && !s.flags[rest[0]].idle) || more.1)
  {
  }

  lemma LivingNext(rest: seq<nat>, flags: map<nat, Bh>)
    ensures rest == [] ==> Living(rest, flags) == []
    ensures rest != [] ==>
      var first := if rest[0] in flags && flags[rest[0]].deleted then [] else [rest[0]];
      Living(rest, flags) == first + Living(rest[1..], flags)
  {
  }

  lemma SweptAlive(before: Heap, heap: Heap)
    requires Swept(before, heap)
    ensures Bare(heap) == Alive(Bare(before))
  {
  }

  /** The bottom halves and the books at one moment. */
  datatype Moment = Moment(heap: Heap, ledger: map<nat, Ledger>)

  /** The moment at which the request of `id` has been taken and its callback begins. */
  ghost function Taken(m: Moment, id: nat): Moment
    requires id in m.heap && id in m.ledger
  {
    Moment(m.heap[id := m.heap[id].(scheduled := false, idle := false)],
           m.ledger[id := m.ledger[id].(run := m.ledger[id].run + 1)])
  }

  /** From `a` to `b` the walk visits `id`: if it is pending its request is taken and its callback runs, otherwise
      nothing happens. */
  ghost predicate Visited(a: Moment, id: nat, b: Moment) {
    if IsPending(a.heap, id)
    then id in a.ledger && Evolves(Taken(a, id).heap, Taken(a, id).ledger, b.heap, b.ledger)
    else b == a
  }

  /** A visit at this moment finds a request that is not idle. */
  ghost predicate FindsWork(m: Moment, id: nat) {
    IsPending(m.heap, id) && !m.heap[id].idle
  }

  /** `heap` is `before` with exactly the deleted bottom halves unlinked. */
  ghost predicate Swept(before: Heap, heap: Heap) {
    && (forall id | id in heap :: id in before && !heap[id].deleted && heap[id] == before[id].(next := heap[id].next))
    && forall id | id in before && !before[id].deleted :: id in heap
  }

  lemma SweptClean(before: Heap, heap: Heap)
    requires Swept(before, heap)
    ensures forall id | id in heap :: !heap[id].deleted
  {
  }

  lemma TakenSettles(a: Moment, id: nat, b: Moment)
    requires IsPending(a.heap, id) && Visited(a, id, b)
    ensures id in b.ledger && a.ledger[id].run < b.ledger[id].run && a.ledger[id].Settled() < b.ledger[id].Settled()
  {
    assert EvolvesAt(Taken(a, id).heap, Taken(a, id).ledger[id], b.heap, b.ledger[id], id);
  }

  /** `seen` are the moments between the visits to the first elements of `list`; `busy` says whether one found work. */
  ghost predicate Trail(seen: seq<Moment>, list: seq<nat>, busy: bool) {
    && 0 < |seen| <= |list| + 1
    && (forall k | 0 <= k < |seen| - 1 :: Visited(seen[k], list[k], seen[k + 1]))
    && (busy <==> exists k :: 0 <= k < |seen| - 1 && FindsWork(seen[k], list[k]))
  }

  lemma TrailStart(m: Moment, list: seq<nat>)
    ensures Trail([m], list, false)
  {
  }

  lemma TrailNext(seen: seq<Moment>, list: seq<nat>, busy: bool, next: Moment)
    requires Trail(seen, list, busy) && |seen| <= |list| && Visited(seen[|seen| - 1], list[|seen| - 1], next)
    ensures Trail(seen + [next], list, busy || FindsWork(seen[|seen| - 1], list[|seen| - 1]))
  {
    hide Visited, FindsWork;
    var more := seen + [next];
    var n := |seen| - 1;
    forall k | 0 <= k < |more| - 1
      ensures Visited(more[k], list[k], more[k + 1])
    {
      assert more[k] == seen[k] && (k < n ==> more[k + 1] == seen[k + 1]);
    }
    if FindsWork(seen[n], list[n]) {
      assert FindsWork(more[n], list[n]);
    }
    if busy {
      var k :| 0 <= k < |seen| - 1 && FindsWork(seen[k], list[k]);
      assert FindsWork(more[k], list[k]);
    }
    if k :| 0 <= k < |more| - 1 && FindsWork(more[k], list[k]) {
      assert more[k] == seen[k];
    }
  }

  lemma VisitFinds(seen: seq<Moment>, list: seq<nat>, rest: seq<nat>, one: Option<bool>)
    requires Ends(list, rest) && rest != [] && |seen| == |list| - |rest| + 1
    requires var m := seen[|seen| - 1]; one == if IsPending(m.heap, rest[0]) then Some(m.heap[rest[0]].idle) else None
    ensures list[|seen| - 1] == rest[0]
    ensures one.Some? && !one.value <==> FindsWork(seen[|seen| - 1], rest[0])
  {
    assert list[|list| - |rest|..][0] == rest[0];
  }

  class AioContext {
    var heap: Heap
    var first: Option<nat>
    var walking: nat

    /** Addresses handed out so far. */
    var handedOut: nat

    ghost var list: seq<nat>
    ghost var ledger: map<nat, Ledger>

    constructor ()
      ensures Valid() && heap == map[] && walking == 0
    {
      heap, first, walking, handedOut, list, ledger := map[], None, 0, 0, [], map[];
    }

    ghost predicate Valid()
      reads this
    {
      Linked(heap, first, list) && AllBalance(heap, ledger) && Below(heap, ledger, handedOut)
    }

    ghost function Abs(): Bhs
      reads this
    {
      Bhs(list, Bare(heap), walking, handedOut)
    }

    ghost function Now(): Moment
      reads this
    {
      Moment(heap, ledger)
    }

    /** aio_bh_new */
    method BhNew() returns (id: nat)
      requires Valid()
      modifies this
      ensures Valid() && id !in old(heap) && list == [id] + old(list) && walking == old(walking)
      ensures heap == old(heap)[id := Bh(old(first), false, false, false)] && Abs() == Act(old(Abs()), New)
      ensures Evolves(old(heap), old(ledger), heap, ledger)
    {
      hide Linked;
      id := handedOut;
      BareSet(heap, id, Bh(first, false, false, false));
      LinkedNew(heap, first, list, id);
      heap := heap[id := Bh(first, false, false, false)];
      first := Some(id);
      handedOut := handedOut + 1;
      list := [id] + list;
      ledger := ledger[id := Ledger(0, 0, 0)];
    }

    /** Set the flags of one bottom half and book the change. */
    method SetFlags(id: nat, bh: Bh, ghost entry: Ledger)
      requires Valid() && id in heap && bh.next == heap[id].next && entry.Balances(bh.scheduled)
      requires EvolvesAt(heap, ledger[id], heap[id := bh], entry, id)
      modifies this`heap, this`ledger
      ensures Valid() && heap == old(heap)[id := bh] && ledger == old(ledger)[id := entry]
      ensures Abs() == old(Abs()).Set(id, bh.(next := None))
      ensures Evolves(old(heap), old(ledger), heap, ledger)
    {
      hide Linked;
      LinkedFlags(heap, first, list, id, bh);
      BareSet(heap, id, bh);
      heap := heap[id := bh];
      ledger := ledger[id := entry];
    }

    /** qemu_bh_schedule and qemu_bh_schedule_idle: asking again changes nothing. */
    method BhSchedule(id: nat, idle: bool)
      requires Valid() && id in heap
      modifies this`heap, this`ledger
      ensures Valid() && Evolves(old(heap), old(ledger), heap, ledger)
      ensures heap == if old(heap)[id].scheduled then old(heap)
                      else old(heap)[id := old(heap)[id].(scheduled := true, idle := idle)]
      ensures Abs() == Act(old(Abs()), if idle then ScheduleIdle(id) else Schedule(id))
    {
      hide Linked;
      if !heap[id].scheduled {
        SetFlags(id, heap[id].(scheduled := true, idle := idle), ledger[id].(asked := ledger[id].asked + 1));
      }
    }

    /** qemu_bh_cancel, and qemu_bh_delete which also marks it for removal. */
    method BhCancel(id: nat, delete: bool)
      requires Valid() && id in heap
      modifies this`heap, this`ledger
      ensures Valid() && Evolves(old(heap), old(ledger), heap, ledger)
      ensures heap == old(heap)[id := old(heap)[id].(scheduled := false, deleted := old(heap)[id].deleted || delete)]
      ensures Abs() == Act(old(Abs()), if delete then Delete(id) else Cancel(id))
    {
      hide Linked;
      var bh := heap[id];
      ghost var entry := if bh.scheduled then ledger[id].(dropped := ledger[id].dropped + 1) else ledger[id];
      SetFlags(id, bh.(scheduled := false, deleted := bh.deleted || delete), entry);
    }

    /** One thing a callback does; a bottom half that no longer exists cannot be named. */
    method Perform(a: Action)
      requires Valid()
      modifies this
      ensures Valid() && walking == old(walking) && Evolves(old(heap), old(ledger), heap, ledger)
      ensures walking > 0 ==> Ends(list, old(list))
      ensures Abs() == Act(old(Abs()), a)
      decreases ActionSize(a), 1
    {
      hide Linked, AllBalance, Below;
      match a {
        case New =>
          var _ := BhNew();
        case Schedule(id) =>
          if id in heap {
            BhSchedule(id, false);
          }
        case ScheduleIdle(id) =>
          if id in heap {
            BhSchedule(id, true);
          }
        case Cancel(id) =>
          if id in heap {
            BhCancel(id, false);
          }
        case Delete(id) =>
          if id in heap {
            BhCancel(id, true);
          }
        case Poll(callbacks) =>
          ghost var seen;
          var busy;
          busy, seen := BhPoll(callbacks);
      }
    }

    /** A whole callback. */
    method Execute(script: Actions)
      requires Valid()
      modifies this
      ensures Valid() && walking == old(walking) && Evolves(old(heap), old(ledger), heap, ledger)
      ensures walking > 0 ==> Ends(list, old(list))
      ensures Abs() == Call(old(Abs()), script)
      decreases ActionsSize(script), 2
    {
      hide Linked, AllBalance, Below, Evolves, Ends, Act, Bare;
      if script.Do? {
        Perform(script.action);
        ghost var heap1, ledger1, list1 := heap, ledger, list;
        Execute(script.rest);
        EvolvesTrans(old(heap), old(ledger), heap1, ledger1, heap, ledger);
        if walking > 0 {
          EndsTrans(list, list1, old(list));
        }
      } else {
        NothingDies(heap, ledger, list);
      }
    }

    /** What the walk does at one bottom half: run it if it is scheduled and not deleted. */
    method Visit(id: nat, cbs: Callbacks) returns (ran: Option<bool>, left: Callbacks)
      requires Valid() && walking > 0 && id in heap
      modifies this
      ensures Valid() && walking == old(walking) && Evolves(old(heap), old(ledger), heap, ledger)
      ensures Ends(list, old(list))
      ensures ran == if IsPending(old(heap), id) then Some(old(heap)[id].idle) else None
      ensures Visited(old(Now()), id, Now()) && (Abs(), left) == VisitOne(old(Abs()), id, cbs)
      ensures IsPending(old(heap), id) ==>
        id in old(ledger) && id in ledger && old(ledger)[id].Settled() < ledger[id].Settled()
      ensures CallbacksSize(left) <= CallbacksSize(cbs)
      decreases CallbacksSize(cbs), 3
    {
      hide Linked, Below, Evolves, Ends, Call, Bare, Bhs.Pending;
      left, ran := cbs, None;
      BareAt(heap, id);
      PendingBare(heap, list, walking, handedOut, id);
      NothingDies(heap, ledger, list);
      if !heap[id].deleted && heap[id].scheduled {
        ran := Some(heap[id].idle);
        Consume(id);
        NothingDies(heap, ledger, list);
        if cbs.Next? {
          ghost var heap1, ledger1, list1 := heap, ledger, list;
          Execute(cbs.script);
          left := cbs.others;
          EvolvesTrans(old(heap), old(ledger), heap1, ledger1, heap, ledger);
        }
        TakenSettles(old(Now()), id, Now());
      }
    }

    /** The loop of aio_bh_poll.  The `next` pointer saved before a callback is still good after it, because nothing
        is unlinked while a walk is on. */
    method WalkAll(callbacks: Callbacks) returns (busy: bool, ghost seen: seq<Moment>)
      requires Valid() && walking > 0
      modifies this
      ensures Valid() && walking == old(walking) && Evolves(old(heap), old(ledger), heap, ledger)
      ensures Ends(list, old(list)) && (Abs(), busy) == Walk(old(Abs()), old(list), callbacks)
      ensures forall id | IsPending(old(heap), id) :: id in ledger && old(ledger)[id].Settled() < ledger[id].Settled()
      ensures |seen| == |old(list)| + 1 && seen[0] == old(Now()) && seen[|old(list)|] == Now()
      ensures Trail(seen, old(list), busy)
      decreases CallbacksSize(callbacks), 4
    {
      hide Linked, AllBalance, Below, Evolves, Ends, AllSettled, Visited, FindsWork, IsPending, Seen, Walk, VisitOne,
        Bare, Bhs.Pending, Trail;
      ghost var heap0, ledger0, list0, total := heap, ledger, list, Walk(Abs(), list, callbacks);
      busy, seen := false, [Now()];
      var cbs := callbacks;
      var bh := first;
      ghost var rest := list;
      NothingDies(heap, ledger, list);
      WalkStart(heap, first, list);
      NoneSeen(heap0, ledger0);
      TrailStart(Now(), list);
      while bh.Some?
        invariant Valid() && walking == old(walking) && Evolves(heap0, ledger0, heap, ledger)
        invariant Ends(list, list0) && Ends(list, rest) && Ends(list0, rest) && bh == Follower(rest, 0)
        invariant CallbacksSize(cbs) <= CallbacksSize(callbacks)
        invariant Walk(Abs(), rest, cbs).0 == total.0 && (busy || Walk(Abs(), rest, cbs).1) == total.1
        invariant |rest| <= |list0| && |seen| == |list0| - |rest| + 1
        invariant seen[0] == old(Now()) && seen[|seen| - 1] == Now()
        invariant Trail(seen, list0, busy)
        invariant AllSettled(heap0, ledger0, ledger, Seen(list0, rest))
        decreases |rest|
      {
        var id := bh.value;
        WalkAt(heap, first, list, rest);
        WalkAt(heap0, old(first), list0, rest);
        var next := heap[id].next;
        ghost var heap1, ledger1, list1 := heap, ledger, list;
        WalkNext(Abs(), rest, cbs);
        PendingBare(heap, list, walking, handedOut, id);
        var one;
        one, cbs := Visit(id, cbs);
        VisitFinds(seen, list0, rest, one);
        TrailNext(seen, list0, busy, Now());
        if one.Some? && !one.value {
          busy := true;
        }
        seen := seen + [Now()];
        VisitSettles(heap0, ledger0, heap1, ledger1, heap, ledger, list0, rest);
        EvolvesTrans(heap0, ledger0, heap1, ledger1, heap, ledger);
        WalkOn(list, list1, list0, rest);
        rest := rest[1..];
        bh := next;
      }
      WalkNext(Abs(), rest, cbs);
      SeenAll(heap0, old(first), ledger0, ledger, list0, rest);
    }

    /** aio_bh_poll.  The walk visits the bottom halves that were there when it began, in order, and the result says
        whether a visit found a request that was not idle.  Every request that was pending when the walk began is
        settled by the time it ends.  The outermost poll then removes what was deleted. */
    method BhPoll(callbacks: Callbacks) returns (busy: bool, ghost seen: seq<Moment>)
      requires Valid()
      modifies this
      ensures Valid() && walking == old(walking) && Evolves(old(heap), old(ledger), heap, ledger)
      ensures walking > 0 ==> Ends(list, old(list))
      ensures walking == 0 ==> forall id | id in heap :: !heap[id].deleted
      ensures forall id | IsPending(old(heap), id) :: id in ledger && old(ledger)[id].Settled() < ledger[id].Settled()
      ensures (Abs(), busy) == PollAll(old(Abs()), callbacks)
      ensures |seen| == |old(list)| + 1 && seen[0] == old(Now())
      ensures Trail(seen, old(list), busy)
      ensures ledger == seen[|old(list)|].ledger
      ensures if walking > 0 then heap == seen[|old(list)|].heap else Swept(seen[|old(list)|].heap, heap)
      decreases CallbacksSize(callbacks), 5
    {
      hide Linked, AllBalance, Below, Evolves, Ends, Trail, IsPending, Swept, Walk, Bare, Living, Alive;
      walking := walking + 1;
      busy, seen := WalkAll(callbacks);
      walking := walking - 1;
      if walking == 0 {
        ghost var heap1, ledger1 := heap, ledger;
        Sweep();
        SweptClean(heap1, heap);
        EvolvesTrans(old(heap), old(ledger), heap1, ledger1, heap, ledger);
      }
    }

    /** Take the request of a bottom half about to run. */
    method Consume(id: nat)
      requires Valid() && id in heap && heap[id].scheduled && !heap[id].deleted
      modifies this`heap, this`ledger
      ensures Valid() && heap == old(heap)[id := old(heap)[id].(scheduled := false, idle := false)]
      ensures Abs() == old(Abs()).Set(id, old(heap)[id].(next := None, scheduled := false, idle := false))
      ensures Evolves(old(heap), old(ledger), heap, ledger)
      ensures ledger == old(ledger)[id := old(ledger)[id].(run := old(ledger)[id].run + 1)]
    {
      hide Linked;
      SetFlags(id, heap[id].(scheduled := false, idle := false), ledger[id].(run := ledger[id].run + 1));
    }

    /** Unlink and free every deleted bottom half. */
    method Sweep()
      requires Valid()
      modifies this
      ensures Abs() == old(Abs()).(list := Living(old(list), Bare(old(heap))), flags := Alive(Bare(old(heap))))
      ensures Valid() && walking == old(walking) && ledger == old(ledger)
      ensures Evolves(old(heap), old(ledger), heap, ledger)
      ensures Swept(old(heap), heap)
    {
      hide Linked, AllBalance, Below, Evolves, Follower, Swept, Living, Alive, Bare;
      ghost var flags := Bare(heap);
      ghost var kept: seq<nat>, rest := [], list;
      var prev: Option<nat> := None;
      var at := first;
      WalkStart(heap, first, list);
      assert list == kept + rest;
      while at.Some?
        invariant list == kept + rest && Linked(heap, first, list) && prev == Last(kept) && at == Follower(rest, 0)
        invariant Living(old(list), flags) == kept + Living(rest, flags)
        invariant walking == old(walking) && ledger == old(ledger) && handedOut == old(handedOut)
        invariant forall id | id in heap :: id in old(heap) && heap[id] == old(heap)[id].(next := heap[id].next)
        invariant forall id | id in old(heap) && !old(heap)[id].deleted :: id in heap
        invariant forall id | id in kept :: id in heap && !heap[id].deleted
        decreases |rest|
      {
        var id := at.value;
        SplitRest(kept, rest, id);
        LivingNext(rest, flags);
        LinkedAt(heap, first, kept, id, rest[1..]);
        BareAt(old(heap), id);
        var next := heap[id].next;
        if heap[id].deleted {
          LinkedUnlink(heap, first, kept, id, rest[1..]);
          ghost var before := heap;
          if prev.Some? {
            heap := heap[prev.value := heap[prev.value].(next := next)];
          } else {
            first := next;
          }
          heap := heap - {id};
          assert heap == Unlinked(before, prev, id);
          list := kept + rest[1..];
        } else {
          prev := Some(id);
          kept := kept + [id];
        }
        rest := rest[1..];
        at := next;
      }
      SweepEnd(heap, first, kept, rest);
      SweptOk(old(heap), heap, ledger, handedOut);
      SweptAlive(old(heap), heap);
      NoRest(rest);
      LivingNext(rest, flags);
    }
  }
}
