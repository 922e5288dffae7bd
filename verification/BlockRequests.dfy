/** Tracked block requests and copy-on-read, under every interleaving of coroutines (block.c). */
module BlockRequests {
  import opened Prelude
  import opened Arithmetic

  type SectorData = seq<bv8>

  /** A read or write by coroutine `co`; a read may be asked to copy what it reads into the image. */
  datatype Request = Request(co: nat, sector: nat, count: nat, write: bool, cor: bool) {
    function End(): nat {
      sector + count
    }

    predicate Ok() {
      count > 0 && !(write && cor)
    }

    predicate Touches(s: nat) {
      sector <= s < End()
    }
  }

  /** QEMU_ALIGN_DOWN and QEMU_ALIGN_UP on the two ends of a request; without clusters it is left as it is. */
  function RoundStart(cluster: nat, r: Request): nat {
    if cluster == 0 then r.sector
    else DivBounds(r.sector, cluster); DivMonotone(0, r.sector, cluster); r.sector / cluster * cluster
  }

  function RoundCount(cluster: nat, r: Request): int {
    if cluster == 0 then r.count
    else (r.sector - RoundStart(cluster, r) + r.count + cluster - 1) / cluster * cluster
  }

  /** tracked_request_overlaps */
  predicate Overlaps(r: Request, sector: nat, count: int) {
    !(sector >= r.sector + r.count) && !(r.sector >= sector + count)
  }

  ghost predicate InRounded(cluster: nat, r: Request, s: nat) {
    RoundStart(cluster, r) <= s < RoundStart(cluster, r) + RoundCount(cluster, r)
  }

  /** Some cluster holds a sector of both. */
  ghost predicate ShareCluster(cluster: nat, a: Request, b: Request) {
    exists s: nat, t: nat :: a.Touches(s) && b.Touches(t) && SameCluster(cluster, s, t)
  }

  predicate SameCluster(cluster: nat, s: nat, t: nat) {
    if cluster == 0 then s == t else s / cluster == t / cluster
  }

  /** The rounded request is the whole of the clusters the request touches. */
  lemma RoundedIsClusters(cluster: nat, r: Request, s: nat)
    requires r.count > 0
    ensures InRounded(cluster, r, s) <==> exists t: nat :: r.Touches(t) && SameCluster(cluster, s, t)
  {
    if cluster == 0 {
      assert InRounded(cluster, r, s) ==> r.Touches(s) && SameCluster(cluster, s, s);
    } else {
      var q, p, k := r.sector / cluster, (r.End() - 1) / cluster, s / cluster;
      RoundedEnd(cluster, r);
      DivBounds(r.sector, cluster);
      DivBounds(r.End() - 1, cluster);
      DivBounds(s, cluster);
      if InRounded(cluster, r, s) {
        InsideQuotients(cluster, q, p, k, s);
        var t := if k == q then r.sector else if k == p then r.End() - 1 else k * cluster;
        if q < k < p {
          MulLess(q, k, cluster);
          MulLess(k, p, cluster);
          DivIs(t, cluster, k);
        }
        assert r.Touches(t) && SameCluster(cluster, s, t);
      }
      forall t: nat | r.Touches(t) && SameCluster(cluster, s, t)
        ensures InRounded(cluster, r, s)
      {
        DivMonotone(r.sector, t, cluster);
        DivMonotone(t, r.End() - 1, cluster);
        InsideQuotients(cluster, q, p, k, s);
      }
    }
  }

  lemma RoundedEnd(cluster: nat, r: Request)
    requires cluster > 0 && r.count > 0
    ensures RoundStart(cluster, r) + RoundCount(cluster, r) == (r.End() - 1) / cluster * cluster + cluster
  {
    var q, p := r.sector / cluster, (r.End() - 1) / cluster;
    DivBounds(r.End() - 1, cluster);
    assert (p - q + 1) * cluster == p * cluster - q * cluster + cluster;
    DivIs(r.sector - q * cluster + r.count + cluster - 1, cluster, p - q + 1);
  }

  lemma InsideQuotients(cluster: nat, q: int, p: int, k: int, s: int)
    requires cluster > 0 && k * cluster <= s < k * cluster + cluster
    ensures q <= k <= p <==> q * cluster <= s < p * cluster + cluster
  {
    if k < q {
      MulLess(k, q, cluster);
    } else if q < k {
      MulLess(q, k, cluster);
    }
    if p < k {
      MulLess(p, k, cluster);
    } else if k < p {
      MulLess(k, p, cluster);
    }
  }

  /** Rounding one side of the test is enough: it finds exactly the requests that share a cluster. */
  lemma OneSideIsEnough(cluster: nat, a: Request, b: Request)
    requires a.count > 0 && b.count > 0
    ensures Overlaps(a, RoundStart(cluster, b), RoundCount(cluster, b)) <==> ShareCluster(cluster, a, b)
  {
    hide RoundStart, RoundCount, SameCluster;
    var lo, n := RoundStart(cluster, b), RoundCount(cluster, b);
    if Overlaps(a, lo, n) {
      var s := Max(a.sector, lo);
      NonEmptyRound(cluster, b);
      assert a.Touches(s) && InRounded(cluster, b, s);
      RoundedIsClusters(cluster, b, s);
    }
    forall s: nat, t: nat | a.Touches(s) && b.Touches(t) && SameCluster(cluster, s, t)
      ensures Overlaps(a, lo, n)
    {
      RoundedIsClusters(cluster, b, s);
    }
  }

  lemma NonEmptyRound(cluster: nat, r: Request)
    requires r.count > 0
    ensures RoundCount(cluster, r) > 0
  {
    if cluster > 0 {
      RoundedEnd(cluster, r);
      DivBounds(r.End() - 1, cluster);
      DivBounds(r.sector, cluster);
    }
  }

  lemma ShareClusterSymmetric(cluster: nat, a: Request, b: Request)
    requires ShareCluster(cluster, a, b)
    ensures ShareCluster(cluster, b, a)
  {
  }

  /** The requests in progress, by coroutine. */
  type Tracked = map<nat, Request>

  /** Two tracked requests share a cluster only if neither copies on read. */
  ghost predicate Compatible(cluster: nat, a: Request, b: Request) {
    a.cor || b.cor ==> !ShareCluster(cluster, a, b)
  }

  ghost predicate AllCompatible(cluster: nat, tracked: Tracked) {
    forall a, b | a in tracked && b in tracked && a != b :: Compatible(cluster, tracked[a], tracked[b])
  }

  /** Contents of the device as the guest sees them. */
  ghost function Visible(image: map<nat, SectorData>, backing: nat -> SectorData, s: nat): SectorData {
    if s in image then image[s] else backing(s)
  }

  /** A store the guest has made. */
  datatype Store = Store(sector: nat, data: SectorData)

  ghost function Stored(backing: nat -> SectorData, log: seq<Store>, s: nat): SectorData {
    if log == [] then backing(s)
    else if log[|log| - 1].sector == s then log[|log| - 1].data
    else Stored(backing, log[..|log| - 1], s)
  }

  lemma StoredSnoc(backing: nat -> SectorData, log: seq<Store>, w: Store, s: nat)
    ensures Stored(backing, log + [w], s) == if w.sector == s then w.data else Stored(backing, log, s)
  {
    assert (log + [w])[..|log|] == log;
  }

  /** A request that touches a sector of the clusters of a copying read shares a cluster with it. */
  lemma TouchShares(cluster: nat, r: Request, c: Request, s: nat)
    requires r.Touches(s) && c.count > 0 && InRounded(cluster, c, s)
    ensures ShareCluster(cluster, r, c)
  {
    hide InRounded, SameCluster;
    RoundedIsClusters(cluster, c, s);
  }

  /** Where every coroutine is, as a value. */
  datatype Places = Places(
    tracked: Tracked,
    waiting: map<nat, (Request, nat)>,
    woken: map<nat, Request>,
    copying: set<nat>) {

    ghost predicate Holds(r: Request, co: nat) {
      r.co == co && r.Ok() && (r.cor <==> co in copying)
    }

    ghost predicate TrackedOk(co: nat)
      requires co in tracked
    {
      co !in waiting && co !in woken && Holds(tracked[co], co)
    }

    /** A sleeper sleeps on a tracked request. */
    ghost predicate WaitingOk(co: nat)
      requires co in waiting
    {
      co !in woken && Holds(waiting[co].0, co) && waiting[co].1 in tracked
    }

    /** Every coroutine is in one place, except one that may be running. */
    ghost predicate Ok(running: set<nat>) {
      && (forall co | co in tracked :: TrackedOk(co))
      && (forall co | co in waiting :: WaitingOk(co))
      && (forall co | co in woken :: Holds(woken[co], co))
      && forall co | co in copying :: co in tracked || co in waiting || co in woken || co in running
    }

    /** Every coroutine that has a request, wherever it is, with its request. */
    ghost function Everyone(): map<nat, Request> {
      map co | co in tracked.Keys + waiting.Keys + woken.Keys ::
        if co in tracked then tracked[co] else if co in waiting then waiting[co].0 else woken[co]
    }

    ghost predicate Fresh(co: nat) {
      co !in waiting && co !in woken && co !in tracked
    }
  }

  lemma PlaceTracked(p: Places, r: Request)
    requires p.Ok({r.co}) && p.Fresh(r.co) && p.Holds(r, r.co)
    ensures p.(tracked := p.tracked[r.co := r]).Ok({})
  {
  }

  lemma PlaceWaiting(p: Places, r: Request, on: nat)
    requires p.Ok({r.co}) && p.Fresh(r.co) && p.Holds(r, r.co) && on in p.tracked
    ensures p.(waiting := p.waiting[r.co := (r, on)]).Ok({})
  {
  }

  lemma PlaceCopying(p: Places, co: nat)
    requires p.Ok({}) && p.Fresh(co)
    ensures p.(copying := p.copying + {co}).Ok({co}) && co !in p.copying && p.Ok({co})
  {
  }

  lemma PlaceRunning(p: Places, co: nat)
    requires p.Ok({}) && co in p.woken
    ensures p.(woken := p.woken - {co}).Ok({co}) && p.(woken := p.woken - {co}).Fresh(co)
    ensures p.Holds(p.woken[co], co)
  {
  }

  /** From `p` to `q` the request joins the tracked ones, or sleeps on one of them that shares a cluster. */
  ghost predicate Queued(cluster: nat, p: Places, r: Request, q: Places) {
    if forall co | co in p.tracked :: !ShareCluster(cluster, p.tracked[co], r)
    then q.tracked == p.tracked[r.co := r] && q.waiting == p.waiting
    else
      && q.tracked == p.tracked && r.co in q.waiting && q.waiting == p.waiting[r.co := (r, q.waiting[r.co].1)]
      && q.waiting[r.co].1 in q.tracked && ShareCluster(cluster, q.tracked[q.waiting[r.co].1], r)
  }

  /** A new request waits its turn only while some read copies. */
  ghost predicate Arrived(cluster: nat, p: Places, r: Request, q: Places) {
    && q.woken == p.woken && q.copying == (if r.cor then p.copying + {r.co} else p.copying)
    && if q.copying == {} then q.tracked == p.tracked[r.co := r] && q.waiting == p.waiting
       else Queued(cluster, p, r, q)
  }

  /** Who is restarted, and who sleeps on, when the request of `co` ends. */
  function Restarted(waiting: map<nat, (Request, nat)>, co: nat): map<nat, Request> {
    map w | w in waiting && waiting[w].1 == co :: waiting[w].0
  }

  function StillAsleep(waiting: map<nat, (Request, nat)>, co: nat): map<nat, (Request, nat)> {
    map w | w in waiting && waiting[w].1 != co :: waiting[w]
  }

  lemma PlaceEnded(p: Places, co: nat)
    requires p.Ok({}) && co in p.tracked
    ensures Ended(p, co).Ok({}) && Ended(p, co).Fresh(co)
  {
    var q := Ended(p, co);
    forall w | w in q.woken
      ensures q.Holds(q.woken[w], w)
    {
      if w in p.waiting {
        assert p.WaitingOk(w);
      }
    }
    forall w | w in q.waiting
      ensures q.WaitingOk(w)
    {
      assert p.WaitingOk(w);
    }
    forall w | w in q.tracked
      ensures q.TrackedOk(w)
    {
      assert p.TrackedOk(w);
    }
    assert p.TrackedOk(co);
  }

  /** What a copying read has in its buffer lies in its clusters and is what the guest stored last. */
  ghost predicate BounceOk(cluster: nat, backing: nat -> SectorData, log: seq<Store>, tracked: Tracked, co: nat,
                           buffer: map<nat, SectorData>)
  {
    && co in tracked && tracked[co].cor
    && forall s | s in buffer :: InRounded(cluster, tracked[co], s) && buffer[s] == Stored(backing, log, s)
  }

  ghost predicate AllBounceOk(cluster: nat, backing: nat -> SectorData, log: seq<Store>, tracked: Tracked,
                              bounce: map<nat, map<nat, SectorData>>)
  {
    forall co | co in bounce :: BounceOk(cluster, backing, log, tracked, co, bounce[co])
  }

  /** What a copying read has in its buffer. */
  function Buffered(bounce: map<nat, map<nat, SectorData>>, co: nat): map<nat, SectorData> {
    if co in bounce then bounce[co] else map[]
  }

  /** The image shows what the guest stored. */
  ghost predicate Shows(image: map<nat, SectorData>, backing: nat -> SectorData, log: seq<Store>) {
    forall s: nat :: Visible(image, backing, s) == Stored(backing, log, s)
  }

  lemma CompatibleJoin(cluster: nat, tracked: Tracked, r: Request)
    requires AllCompatible(cluster, tracked) && forall co | co in tracked :: Compatible(cluster, tracked[co], r)
    ensures AllCompatible(cluster, tracked[r.co := r])
  {
    hide ShareCluster;
    forall co | co in tracked
      ensures Compatible(cluster, r, tracked[co])
    {
      if ShareCluster(cluster, r, tracked[co]) {
        ShareClusterSymmetric(cluster, r, tracked[co]);
      }
    }
  }

  lemma CompatibleDropped(cluster: nat, tracked: Tracked, co: nat)
    requires AllCompatible(cluster, tracked)
    ensures AllCompatible(cluster, tracked - {co})
  {
    hide Compatible;
  }

  lemma BounceKept(cluster: nat, backing: nat -> SectorData, log: seq<Store>, tracked: Tracked, next: Tracked,
                   bounce: map<nat, map<nat, SectorData>>)
    requires AllBounceOk(cluster, backing, log, tracked, bounce)
    requires forall co | co in bounce && co in tracked :: co in next && next[co] == tracked[co]
    ensures AllBounceOk(cluster, backing, log, next, bounce)
  {
    hide InRounded, Stored;
    forall co | co in bounce
      ensures BounceOk(cluster, backing, log, next, co, bounce[co])
    {
      assert BounceOk(cluster, backing, log, tracked, co, bounce[co]);
    }
  }

  /** A tracked write keeps clear of every copying read, so their buffers stay current. */
  lemma BounceSurvivesWrite(cluster: nat, backing: nat -> SectorData, log: seq<Store>, tracked: Tracked,
                            bounce: map<nat, map<nat, SectorData>>, co: nat, w: Store)
    requires AllBounceOk(cluster, backing, log, tracked, bounce) && AllCompatible(cluster, tracked)
    requires forall c | c in tracked :: tracked[c].Ok()
    requires co in tracked && tracked[co].write && tracked[co].Touches(w.sector)
    ensures AllBounceOk(cluster, backing, log + [w], tracked, bounce)
  {
    hide InRounded, Stored, ShareCluster;
    forall c | c in bounce
      ensures BounceOk(cluster, backing, log + [w], tracked, c, bounce[c])
    {
      assert BounceOk(cluster, backing, log, tracked, c, bounce[c]);
      assert Compatible(cluster, tracked[co], tracked[c]);
      forall s | s in bounce[c]
        ensures s != w.sector && Stored(backing, log + [w], s) == Stored(backing, log, s)
      {
        if s == w.sector {
          TouchShares(cluster, tracked[co], tracked[c], s);
        }
        StoredSnoc(backing, log, w, s);
      }
    }
  }

  lemma ShowsWrite(image: map<nat, SectorData>, backing: nat -> SectorData, log: seq<Store>, w: Store)
    requires Shows(image, backing, log)
    ensures Shows(image[w.sector := w.data], backing, log + [w])
  {
    hide Stored;
    forall s: nat
      ensures Visible(image[w.sector := w.data], backing, s) == Stored(backing, log + [w], s)
    {
      StoredSnoc(backing, log, w, s);
      assert Visible(image, backing, s) == Stored(backing, log, s);
    }
  }

  /** Storing what is already shown changes nothing. */
  lemma ShowsSame(image: map<nat, SectorData>, backing: nat -> SectorData, log: seq<Store>, s: nat, data: SectorData)
    requires Shows(image, backing, log) && data == Stored(backing, log, s)
    ensures Shows(image[s := data], backing, log)
    ensures forall t: nat :: Visible(image[s := data], backing, t) == Visible(image, backing, t)
  {
    hide Stored;
    assert Visible(image, backing, s) == Stored(backing, log, s);
    forall t: nat
      ensures Visible(image[s := data], backing, t) == Visible(image, backing, t) == Stored(backing, log, t)
    {
    }
  }

  class BlockDevice {
    const cluster: nat
    const backing: nat -> SectorData

    var tracked: Tracked

    /** Coroutines asleep on the queue of a tracked request, and those restarted but not yet run. */
    var waiting: map<nat, (Request, nat)>
    var woken: map<nat, Request>
    var inFlight: int

    /** Sectors allocated in the image, and what each copying read has read so far. */
    var image: map<nat, SectorData>
    var bounce: map<nat, map<nat, SectorData>>

    /** Copying reads between the increment and the decrement of `inFlight`, and the guest's stores in order. */
    ghost var copying: set<nat>
    ghost var log: seq<Store>

    constructor (cluster: nat, backing: nat -> SectorData)
      ensures Valid() && P() == Places(map[], map[], map[], {}) && log == []
      ensures this.cluster == cluster && this.backing == backing
    {
      this.cluster, this.backing := cluster, backing;
      tracked, waiting, woken, inFlight, image, bounce := map[], map[], map[], 0, map[], map[];
      copying, log := {}, [];
    }

    ghost function P(): Places
      reads this
    {
      Places(tracked, waiting, woken, copying)
    }

    ghost function Now(): Snapshot
      reads this
    {
      Snapshot(P(), image, bounce)
    }

    ghost predicate ValidBut(running: set<nat>)
      reads this
    {
      && P().Ok(running) && inFlight == |copying| && AllCompatible(cluster, tracked)
      && Shows(image, backing, log) && AllBounceOk(cluster, backing, log, tracked, bounce)
    }

    ghost predicate Valid()
      reads this
    {
      ValidBut({})
    }

    /** The search of wait_for_overlapping_requests: a tracked request that shares a cluster with `r`. */
    method FindOverlap(r: Request) returns (found: Option<nat>)
      requires r.Ok() && forall co | co in tracked :: tracked[co].Ok()
      ensures found.None? ==> forall co | co in tracked :: !ShareCluster(cluster, tracked[co], r)
      ensures found.Some? ==> found.value in tracked && ShareCluster(cluster, tracked[found.value], r)
    {
      hide RoundStart, RoundCount, Overlaps, ShareCluster;
      var lo, n := RoundStart(cluster, r), RoundCount(cluster, r);
      var left := tracked.Keys;
      while left != {}
        invariant left <= tracked.Keys
        invariant forall co | co in tracked && co !in left :: !ShareCluster(cluster, tracked[co], r)
        decreases |left|
      {
        var co :| co in left;
        OneSideIsEnough(cluster, tracked[co], r);
        if Overlaps(tracked[co], lo, n) {
          return Some(co);
        }
        left := left - {co};
      }
      return None;
    }

    /** tracked_request_begin, for a request known to fit in. */
    method Begin(r: Request)
      requires ValidBut({r.co}) && P().Fresh(r.co) && P().Holds(r, r.co)
      requires forall co | co in tracked :: Compatible(cluster, tracked[co], r)
      modifies this`tracked
      ensures Valid() && tracked == old(tracked)[r.co := r]
    {
      hide Compatible, AllCompatible, AllBounceOk, Shows, Places.Ok;
      PlaceTracked(P(), r);
      CompatibleJoin(cluster, tracked, r);
      BounceKept(cluster, backing, log, tracked, tracked[r.co := r], bounce);
      tracked := tracked[r.co := r];
    }

    /** Either sleep on a request that shares a cluster, or join the tracked requests. */
    method WaitOrBegin(r: Request)
      requires ValidBut({r.co}) && P().Fresh(r.co) && P().Holds(r, r.co)
      modifies this`tracked, this`waiting
      ensures Valid() && Queued(cluster, old(P()), r, P())
    {
      hide ShareCluster, AllCompatible, AllBounceOk, Shows, Places.Ok;
      TrackedAllOk(P(), {r.co});
      var found := FindOverlap(r);
      if found.Some? {
        PlaceWaiting(P(), r, found.value);
        waiting := waiting[r.co := (r, found.value)];
      } else {
        Begin(r);
      }
    }

    /** bdrv_co_do_readv and bdrv_co_do_writev, up to the first point where the coroutine can sleep. */
    method Submit(r: Request)
      requires Valid() && P().Fresh(r.co) && r.Ok()
      modifies this
      ensures Valid() && (r.co in tracked || r.co in waiting) && woken == old(woken)
      ensures image == old(image) && log == old(log) && bounce == old(bounce)
      ensures inFlight == old(inFlight) + if r.cor then 1 else 0
      ensures Arrived(cluster, old(P()), r, P()) && (copying == {} <==> inFlight == 0)
    {
      hide ShareCluster, AllCompatible, AllBounceOk, Shows, Places.Ok;
      PlaceCopying(P(), r.co);
      if r.cor {
        inFlight := inFlight + 1;
        copying := copying + {r.co};
      }
      if inFlight != 0 {
        WaitOrBegin(r);
      } else {
        assert copying == {};
        NobodyCopies(P(), r);
        Begin(r);
      }
    }

    /** A restarted coroutine looks again. */
    method Resume(co: nat)
      requires Valid() && co in woken
      modifies this`tracked, this`waiting, this`woken
      ensures Valid() && woken == old(woken) - {co} && (co in tracked || co in waiting)
      ensures Queued(cluster, old(P()), old(woken)[co], P())
    {
      hide ShareCluster, AllCompatible, AllBounceOk, Shows, Places.Ok;
      var r := woken[co];
      PlaceRunning(P(), co);
      woken := woken - {co};
      WaitOrBegin(r);
    }

    /** tracked_request_end: the request goes, everyone asleep on it is restarted, and the counter follows. */
    method Complete(co: nat)
      requires Valid() && co in tracked
      modifies this
      ensures Valid() && P().Fresh(co) && P() == Ended(old(P()), co) && SleepersServed(old(P()), co, P())
      ensures inFlight == old(inFlight) - (if old(tracked)[co].cor then 1 else 0) && bounce == old(bounce) - {co}
      ensures image == old(image) && log == old(log)
    {
      hide AllCompatible, AllBounceOk, Shows, Places.Ok, Places.Fresh, Restarted, StillAsleep, SleepersServed;
      EndedOk(P(), inFlight, cluster, backing, log, bounce, co);
      EndedServes(P(), co);
      if tracked[co].cor {
        inFlight := inFlight - 1;
      }
      tracked, bounce := tracked - {co}, bounce - {co};
      woken, waiting := woken + Restarted(waiting, co), StillAsleep(waiting, co);
      copying := copying - {co};
    }

    /** A tracked read gets one sector; a copying read gets it from its buffer, once it is there. */
    method ReadSector(co: nat, s: nat) returns (data: SectorData)
      requires Valid() && co in tracked && tracked[co].Touches(s)
      requires tracked[co].cor ==> co in bounce && s in bounce[co]
      ensures data == Stored(backing, log, s)
    {
      hide InRounded, AllCompatible, Stored, Places.Ok;
      assert Visible(image, backing, s) == Stored(backing, log, s);
      if tracked[co].cor {
        assert BounceOk(cluster, backing, log, tracked, co, bounce[co]);
        data := bounce[co][s];
      } else {
        data := if s in image then image[s] else backing(s);
      }
    }

    /** A copying read reads one sector of its clusters into its buffer. */
    method CopySector(co: nat, s: nat)
      requires Valid() && co in tracked && tracked[co].cor && InRounded(cluster, tracked[co], s)
      modifies this`bounce
      ensures Valid() && co in bounce && s in bounce[co] && bounce[co][s] == Stored(backing, log, s)
      ensures bounce == old(bounce)[co := Buffered(old(bounce), co)[s := Visible(image, backing, s)]]
      ensures forall t :: t in bounce[co] <==> t == s || (co in old(bounce) && t in old(bounce)[co])
      ensures forall t | co in old(bounce) && t in old(bounce)[co] && t != s :: bounce[co][t] == old(bounce)[co][t]
    {
      hide InRounded, AllCompatible, Stored, Places.Ok;
      assert Visible(image, backing, s) == Stored(backing, log, s);
      var data := if s in image then image[s] else backing(s);
      bounce := bounce[co := Buffered(bounce, co)[s := data]];
    }

    /** With all its clusters read, a copying read writes a sector back: the guest sees no change. */
    method WriteBack(co: nat, s: nat)
      requires Valid() && co in bounce && co in tracked && s in bounce[co]
      requires forall t: nat | InRounded(cluster, tracked[co], t) :: t in bounce[co]
      modifies this`image
      ensures Valid() && image == old(image)[s := bounce[co][s]]
      ensures forall t: nat :: Visible(image, backing, t) == Visible(old(image), backing, t)
    {
      hide InRounded, AllCompatible, Shows, Stored, Places.Ok;
      assert BounceOk(cluster, backing, log, tracked, co, bounce[co]);
      ShowsSame(image, backing, log, s, bounce[co][s]);
      image := image[s := bounce[co][s]];
    }

    /** A tracked write stores one sector. */
    method WriteSector(co: nat, s: nat, data: SectorData)
      requires Valid() && co in tracked && tracked[co].write && tracked[co].Touches(s)
      modifies this`image, this`log
      ensures Valid() && image == old(image)[s := data] && log == old(log) + [Store(s, data)]
    {
      hide AllCompatible, AllBounceOk, Shows, Stored, Places.Ok;
      TrackedAllOk(P(), {});
      BounceSurvivesWrite(cluster, backing, log, tracked, bounce, co, Store(s, data));
      ShowsWrite(image, backing, log, Store(s, data));
      image, log := image[s := data], log + [Store(s, data)];
    }

    /** The driver may allocate a sector with the contents it already shows. */
    method Allocate(s: nat)
      requires Valid()
      modifies this`image
      ensures Valid() && image == old(image)[s := Visible(old(image), backing, s)]
      ensures forall t: nat :: Visible(image, backing, t) == Visible(old(image), backing, t)
    {
      hide AllCompatible, AllBounceOk, Stored, Places.Ok;
      var data := if s in image then image[s] else backing(s);
      assert Visible(image, backing, s) == data;
      ShowsSame(image, backing, log, s, data);
      image := image[s := data];
    }
  }

  ghost function Ended(p: Places, co: nat): Places {
    Places(p.tracked - {co}, StillAsleep(p.waiting, co), p.woken + Restarted(p.waiting, co), p.copying - {co})
  }

  /** When the request of `co` ends, it goes; everyone asleep on it is restarted with the request it had, every other
      sleeper sleeps on, and nobody else moves. */
  ghost predicate SleepersServed(p: Places, co: nat, q: Places) {
    && q.tracked == p.tracked - {co} && q.copying == p.copying - {co}
    && (forall w | w in p.waiting ::
          if p.waiting[w].1 == co then w !in q.waiting && w in q.woken && q.woken[w] == p.waiting[w].0
          else w in q.waiting && q.waiting[w] == p.waiting[w])
    && (forall w | w in q.waiting :: w in p.waiting)
    && (forall w | w in p.woken :: w in q.woken && q.woken[w] == p.woken[w])
    && (forall w | w in q.woken :: w in p.woken || w in p.waiting)
  }

  lemma EndedServes(p: Places, co: nat)
    requires p.Ok({}) && co in p.tracked
    ensures SleepersServed(p, co, Ended(p, co))
  {
    forall w | w in p.waiting
      ensures w !in p.woken
    {
      assert p.WaitingOk(w);
    }
  }

  lemma EndedOk(p: Places, inFlight: int, cluster: nat, backing: nat -> SectorData, log: seq<Store>,
                bounce: map<nat, map<nat, SectorData>>, co: nat)
    requires p.Ok({}) && inFlight == |p.copying| && AllCompatible(cluster, p.tracked) && co in p.tracked
    requires AllBounceOk(cluster, backing, log, p.tracked, bounce)
    ensures Ended(p, co).Ok({}) && Ended(p, co).Fresh(co) && AllCompatible(cluster, p.tracked - {co})
    ensures AllBounceOk(cluster, backing, log, p.tracked - {co}, bounce - {co})
    ensures |p.copying - {co}| == inFlight - (if p.tracked[co].cor then 1 else 0)
  {
    hide AllCompatible, AllBounceOk, Places.Ok, Restarted, StillAsleep;
    PlaceEnded(p, co);
    TrackedAllOk(p, {});
    CompatibleDropped(cluster, p.tracked, co);
    BounceDropped(cluster, backing, log, p.tracked, bounce, co);
    OneLess(p.copying, co);
  }

  lemma OneLess(copying: set<nat>, co: nat)
    ensures |copying - {co}| == |copying| - (if co in copying then 1 else 0)
  {
    if co !in copying {
      assert copying - {co} == copying;
    }
  }

  lemma TrackedAllOk(p: Places, running: set<nat>)
    requires p.Ok(running)
    ensures forall co | co in p.tracked :: p.tracked[co].Ok() && (p.tracked[co].cor <==> co in p.copying)
  {
    forall co | co in p.tracked
      ensures p.tracked[co].Ok() && (p.tracked[co].cor <==> co in p.copying)
    {
      assert p.TrackedOk(co);
    }
  }

  /** With no copying read about, any two requests may run together. */
  lemma NobodyCopies(p: Places, r: Request)
    requires p.Ok({r.co}) && p.copying == {} && !r.cor
    ensures forall cluster: nat, co | co in p.tracked :: Compatible(cluster, p.tracked[co], r)
  {
    hide ShareCluster;
    TrackedAllOk(p, {r.co});
  }

  lemma BounceDropped(cluster: nat, backing: nat -> SectorData, log: seq<Store>, tracked: Tracked,
                      bounce: map<nat, map<nat, SectorData>>, co: nat)
    requires AllBounceOk(cluster, backing, log, tracked, bounce)
    ensures AllBounceOk(cluster, backing, log, tracked - {co}, bounce - {co})
  {
    hide InRounded, Stored;
    forall c | c in bounce - {co}
      ensures BounceOk(cluster, backing, log, tracked - {co}, c, (bounce - {co})[c])
    {
      assert BounceOk(cluster, backing, log, tracked, c, bounce[c]);
    }
  }

  /** Waiting never chains: whoever is waited for is running its request, so there is no cycle, and when nothing
      is running nobody waits. */
  lemma NoWaitCycle(p: Places)
    requires p.Ok({})
    ensures forall co | co in p.waiting ::
      var on := p.waiting[co].1; on in p.tracked && on !in p.waiting && on !in p.woken && on != co
    ensures p.tracked == map[] ==> p.waiting == map[]
  {
    forall co | co in p.waiting
      ensures var on := p.waiting[co].1; on in p.tracked && on !in p.waiting && on !in p.woken && on != co
    {
      assert p.WaitingOk(co) && p.TrackedOk(p.waiting[co].1);
    }
  }

  /** What the scheduler may let happen next. */
  datatype Step =
    | Arrive(request: Request)
    | Rerun(co: nat)
    | Read(co: nat, sector: nat)
    | Copy(co: nat, sector: nat)
    | CopyBack(co: nat, sector: nat)
    | Write(co: nat, sector: nat, data: SectorData)
    | Fill(sector: nat)
    | Finish(co: nat)

  /** A device as a value: where every coroutine is, what the image has, and what the copying reads have read. */
  datatype Snapshot = Snapshot(
    places: Places,
    image: map<nat, SectorData>,
    bounce: map<nat, map<nat, SectorData>>)

  /** The coroutine is tracked with a request of that kind for that sector. */
  ghost predicate Serves(p: Places, co: nat, s: nat, write: bool) {
    co in p.tracked && p.tracked[co].write == write && p.tracked[co].Touches(s)
  }

  /** A plain read can always read; a copying read when the sector is in its buffer. */
  ghost predicate CanRead(a: Snapshot, co: nat, s: nat) {
    && Serves(a.places, co, s, false)
    && (a.places.tracked[co].cor ==> co in a.bounce && s in a.bounce[co])
  }

  ghost predicate CanCopy(cluster: nat, a: Snapshot, co: nat, s: nat) {
    co in a.places.tracked && a.places.tracked[co].cor && InRounded(cluster, a.places.tracked[co], s)
  }

  ghost predicate CanCopyBack(cluster: nat, a: Snapshot, co: nat, s: nat) {
    && co in a.bounce && co in a.places.tracked && s in a.bounce[co]
    && forall t: nat | InRounded(cluster, a.places.tracked[co], t) :: t in a.bounce[co]
  }

  /** One step of the device; a step that cannot happen changes nothing. */
  ghost predicate Moves(cluster: nat, backing: nat -> SectorData, a: Snapshot, step: Step, b: Snapshot) {
    var p, q := a.places, b.places;
    match step
    case Arrive(r) =>
      && b.image == a.image && b.bounce == a.bounce
      && if r.count > 0 && !(r.write && r.cor) && p.Fresh(r.co) then Arrived(cluster, p, r, q) else q == p
    case Rerun(co) =>
      && b.image == a.image && b.bounce == a.bounce
      && if co in p.woken then q.woken == p.woken - {co} && q.copying == p.copying && Queued(cluster, p, p.woken[co], q)
         else q == p
    case Read(_, _) => b == a
    case Copy(co, s) =>
      b == if CanCopy(cluster, a, co, s)
           then a.(bounce := a.bounce[co := Buffered(a.bounce, co)[s := Visible(a.image, backing, s)]])
           else a
    case CopyBack(co, s) =>
      b == if CanCopyBack(cluster, a, co, s) then a.(image := a.image[s := a.bounce[co][s]]) else a
    case Write(co, s, data) =>
      b == if Serves(p, co, s, true) then a.(image := a.image[s := data]) else a
    case Fill(s) =>
      b == a.(image := a.image[s := Visible(a.image, backing, s)])
    case Finish(co) =>
      b == if co in p.tracked then Snapshot(Ended(p, co), a.image, a.bounce - {co}) else a
  }

  /** The store that a step makes for the guest. */
  ghost function StoreOf(p: Places, step: Step): seq<Store> {
    if step.Write? && Serves(p, step.co, step.sector, true) then [Store(step.sector, step.data)] else []
  }

  /** Let one step happen, if it can. */
  method Perform(dev: BlockDevice, step: Step) returns (got: Option<SectorData>)
    requires dev.Valid()
    modifies dev
    ensures dev.Valid() && dev.log == old(dev.log) + StoreOf(old(dev.P()), step)
    ensures Moves(dev.cluster, dev.backing, old(dev.Now()), step, dev.Now())
    ensures got.Some? <==> step.Read? && CanRead(old(dev.Now()), step.co, step.sector)
    ensures got.Some? ==> got.value == Stored(dev.backing, old(dev.log), step.sector)
  {
    hide Shows, Stored, AllCompatible, AllBounceOk, Places.Ok, InRounded, Visible, Queued, Arrived, Ended;
    got := None;
    match step {
      case Arrive(r) =>
        if r.Ok() && r.co !in dev.waiting && r.co !in dev.woken && r.co !in dev.tracked {
          dev.Submit(r);
        }
      case Rerun(co) =>
        if co in dev.woken {
          dev.Resume(co);
        }
      case Read(co, s) =>
        if && co in dev.tracked && !dev.tracked[co].write && dev.tracked[co].Touches(s)
           && (dev.tracked[co].cor ==> co in dev.bounce && s in dev.bounce[co]) {
          var data := dev.ReadSector(co, s);
          got := Some(data);
        }
      case Copy(co, s) =>
        if co in dev.tracked && dev.tracked[co].cor && IsInRounded(dev.cluster, dev.tracked[co], s) {
          dev.CopySector(co, s);
        }
      case CopyBack(co, s) =>
        if && co in dev.bounce && co in dev.tracked && s in dev.bounce[co]
           && AllRead(dev.cluster, dev.tracked[co], dev.bounce[co]) {
          dev.WriteBack(co, s);
        }
      case Write(co, s, data) =>
        if co in dev.tracked && dev.tracked[co].write && dev.tracked[co].Touches(s) {
          dev.WriteSector(co, s, data);
        }
      case Fill(s) =>
        dev.Allocate(s);
      case Finish(co) =>
        if co in dev.tracked {
          dev.Complete(co);
        }
    }
  }

  /** The stores that the first `k` steps make for the guest, in order. */
  ghost function StoresOf(trace: seq<Snapshot>, steps: seq<Step>, k: nat): seq<Store>
    requires k <= |steps| && k <= |trace|
  {
    if k == 0 then [] else StoresOf(trace, steps, k - 1) + StoreOf(trace[k - 1].places, steps[k - 1])
  }

  lemma StoresOfNext(trace: seq<Snapshot>, steps: seq<Step>, k: nat)
    requires k < |steps| && k < |trace|
    ensures StoresOf(trace, steps, k + 1) == StoresOf(trace, steps, k) + StoreOf(trace[k].places, steps[k])
  {
  }

  lemma {:induction false} StoresOfPrefix(trace: seq<Snapshot>, more: seq<Snapshot>, steps: seq<Step>, k: nat)
    requires k <= |steps| && k <= |trace| && trace <= more
    ensures StoresOf(more, steps, k) == StoresOf(trace, steps, k)
  {
    if k > 0 {
      StoresOfPrefix(trace, more, steps, k - 1);
    }
  }

  lemma NoStoresYet(trace: seq<Snapshot>, steps: seq<Step>)
    ensures StoresOf(trace, steps, 0) == []
  {
  }

  /** Every coroutine is in one place, no copying read shares a cluster with another tracked request, and whoever
      is waited for runs its request. */
  ghost predicate InOrder(cluster: nat, p: Places) {
    && p.Ok({}) && AllCompatible(cluster, p.tracked)
    && (forall co | co in p.waiting :: p.waiting[co].1 in p.tracked && p.waiting[co].1 !in p.waiting)
    && (p.tracked == map[] ==> p.waiting == map[])
  }

  /** The requests that have arrived and not ended, after the first `k` steps. */
  ghost function Open(trace: seq<Snapshot>, steps: seq<Step>, k: nat): map<nat, Request>
    requires k <= |steps| && k < |trace|
  {
    if k == 0 then trace[0].places.Everyone()
    else
      var open, p := Open(trace, steps, k - 1), trace[k - 1].places;
      match steps[k - 1]
      case Arrive(r) => if r.count > 0 && !(r.write && r.cor) && p.Fresh(r.co) then open[r.co := r] else open
      case Finish(co) => if co in p.tracked then open - {co} else open
      case _ => open
  }

  lemma QueuedEveryone(cluster: nat, p: Places, r: Request, q: Places)
    requires Queued(cluster, p, r, q) && r.co !in p.tracked && r.co !in p.waiting && q.woken == p.woken - {r.co}
    requires forall w | w in p.woken :: w !in p.tracked && w !in p.waiting
    ensures q.Everyone() == p.Everyone()[r.co := r]
  {
    hide ShareCluster;
  }

  lemma OnePlace(p: Places, w: nat)
    requires p.Ok({})
    ensures w in p.tracked ==> w !in p.waiting && w !in p.woken
    ensures w in p.waiting ==> w !in p.woken
  {
    assert w in p.tracked ==> p.TrackedOk(w);
    assert w in p.waiting ==> p.WaitingOk(w);
  }

  lemma EveryoneAt(p: Places, w: nat)
    ensures w in p.Everyone() <==> w in p.tracked || w in p.waiting || w in p.woken
    ensures w in p.Everyone() ==>
      p.Everyone()[w] == if w in p.tracked then p.tracked[w] else if w in p.waiting then p.waiting[w].0 else p.woken[w]
  {
  }

  lemma EndedEveryone(p: Places, co: nat, q: Places)
    requires p.Ok({}) && co in p.tracked && SleepersServed(p, co, q)
    ensures q.Everyone() == p.Everyone() - {co}
  {
    hide Places.Everyone, Places.Ok;
    forall w
      ensures w in q.Everyone() <==> w in p.Everyone() && w != co
      ensures w in q.Everyone() ==> q.Everyone()[w] == p.Everyone()[w]
    {
      OnePlace(p, w);
      OnePlace(p, co);
      EveryoneAt(p, w);
      EveryoneAt(q, w);
    }
  }

  /** No step loses a request or makes one up. */
  lemma NobodyLost(cluster: nat, backing: nat -> SectorData, a: Snapshot, step: Step, b: Snapshot)
    requires a.places.Ok({}) && b.places.Ok({}) && Moves(cluster, backing, a, step, b)
    ensures b.places.Everyone() ==
      match step
      case Arrive(r) => if r.Ok() && a.places.Fresh(r.co) then a.places.Everyone()[r.co := r] else a.places.Everyone()
      case Finish(co) => if co in a.places.tracked then a.places.Everyone() - {co} else a.places.Everyone()
      case _ => a.places.Everyone()
  {
    hide Queued, Places.Everyone, Ended, InRounded, Visible;
    var p, q := a.places, b.places;
    WokenApart(p);
    match step {
      case Arrive(r) =>
        if r.Ok() && p.Fresh(r.co) {
          ArrivedEveryone(cluster, p, r, q);
        }
      case Rerun(co) =>
        if co in p.woken {
          WokenIs(p, co);
          QueuedEveryone(cluster, p, p.woken[co], q);
        }
      case Finish(co) =>
        if co in p.tracked {
          EndedServes(p, co);
          EndedEveryone(p, co, q);
        }
      case _ =>
    }
  }

  /** Over a whole run: whoever has arrived and not ended is somewhere, with its own request, and nobody else is. */
  lemma {:induction false} AllAccounted(cluster: nat, backing: nat -> SectorData, trace: seq<Snapshot>,
                                        steps: seq<Step>, k: nat)
    requires |trace| == |steps| + 1 && k <= |steps| && forall i | 0 <= i <= |steps| :: InOrder(cluster, trace[i].places)
    requires forall i | 0 <= i < |steps| :: Moves(cluster, backing, trace[i], steps[i], trace[i + 1])
    ensures trace[k].places.Everyone() == Open(trace, steps, k)
  {
    hide Moves, InOrder, Places.Everyone;
    if k > 0 {
      AllAccounted(cluster, backing, trace, steps, k - 1);
      InOrderOk(cluster, trace[k - 1].places);
      InOrderOk(cluster, trace[k].places);
      assert Moves(cluster, backing, trace[k - 1], steps[k - 1], trace[k - 1 + 1]);
      NobodyLost(cluster, backing, trace[k - 1], steps[k - 1], trace[k]);
    }
  }

  lemma WokenApart(p: Places)
    requires p.Ok({})
    ensures forall w | w in p.woken :: w !in p.tracked && w !in p.waiting && p.woken[w].co == w
  {
    forall w | w in p.woken
      ensures w !in p.tracked && w !in p.waiting
    {
      assert w in p.tracked ==> p.TrackedOk(w);
      assert w in p.waiting ==> p.WaitingOk(w);
    }
  }

  lemma WokenIs(p: Places, co: nat)
    requires p.Ok({}) && co in p.woken
    ensures p.Everyone()[co := p.woken[co]] == p.Everyone()
  {
  }

  lemma ArrivedEveryone(cluster: nat, p: Places, r: Request, q: Places)
    requires Arrived(cluster, p, r, q) && p.Fresh(r.co)
    requires forall w | w in p.woken :: w !in p.tracked && w !in p.waiting
    ensures q.Everyone() == p.Everyone()[r.co := r]
  {
    hide Queued;
    if q.copying != {} {
      assert p.woken - {r.co} == p.woken;
      QueuedEveryone(cluster, p, r, q);
    }
  }

  /** Any schedule whatever: steps that cannot happen are skipped.  Every step is a step of the device; every read
      gets the last store made before it; and afterwards the device shows exactly the stores of the tracked writes,
      in the order they were made, as if nothing had ever been copied. */
  method Run(dev: BlockDevice, steps: seq<Step>) returns (got: seq<Option<SectorData>>, ghost trace: seq<Snapshot>)
    requires dev.Valid()
    modifies dev
    ensures dev.Valid() && |got| == |steps| && |trace| == |steps| + 1
    ensures trace[0] == old(dev.Now()) && trace[|steps|] == dev.Now()
    ensures forall k | 0 <= k < |steps| :: Moves(dev.cluster, dev.backing, trace[k], steps[k], trace[k + 1])
    ensures forall k | 0 <= k <= |steps| :: InOrder(dev.cluster, trace[k].places)
    ensures forall k | 0 <= k <= |steps| :: trace[k].places.Everyone() == Open(trace, steps, k)
    ensures dev.log == old(dev.log) + StoresOf(trace, steps, |steps|)
    ensures forall s: nat ::
      Visible(dev.image, dev.backing, s) == Stored(dev.backing, old(dev.log) + StoresOf(trace, steps, |steps|), s)
    ensures forall k | 0 <= k < |steps| ::
      got[k].Some? <==> steps[k].Read? && CanRead(trace[k], steps[k].co, steps[k].sector)
    ensures forall k | 0 <= k < |steps| && got[k].Some? ::
      got[k].value == Stored(dev.backing, old(dev.log) + StoresOf(trace, steps, k), steps[k].sector)
  {
    hide Shows, Stored, AllCompatible, AllBounceOk, Places.Ok, InRounded, Visible, Moves, CanRead, InOrder, StoreOf,
      Places.Everyone, Open, StoresOf;
    got, trace := [], [dev.Now()];
    DeviceInOrder(dev);
    assert StoresOf(trace, steps, 0) == [] by {
      NoStoresYet(trace, steps);
    }
    var i := 0;
    while i < |steps|
      invariant i <= |steps| && |got| == i && |trace| == i + 1 && dev.Valid()
      invariant trace[0] == old(dev.Now()) && trace[i] == dev.Now()
      invariant dev.log == old(dev.log) + StoresOf(trace, steps, i)
      invariant forall k | 0 <= k < i :: Moves(dev.cluster, dev.backing, trace[k], steps[k], trace[k + 1])
      invariant forall k | 0 <= k <= i :: InOrder(dev.cluster, trace[k].places)
      invariant forall k | 0 <= k < i ::
        got[k].Some? <==> steps[k].Read? && CanRead(trace[k], steps[k].co, steps[k].sector)
      invariant forall k | 0 <= k < i && got[k].Some? ::
        got[k].value == Stored(dev.backing, old(dev.log) + StoresOf(trace, steps, k), steps[k].sector)
    {
      ghost var before := trace;
      var one := Perform(dev, steps[i]);
      DeviceInOrder(dev);
      got, trace := got + [one], trace + [dev.Now()];
      forall k | 0 <= k <= i
        ensures StoresOf(trace, steps, k) == StoresOf(before, steps, k)
      {
        StoresOfPrefix(before, trace, steps, k);
      }
      StoresOfNext(trace, steps, i);
      i := i + 1;
    }
    ShowsAll(dev.image, dev.backing, dev.log);
    forall k | 0 <= k <= |steps|
      ensures trace[k].places.Everyone() == Open(trace, steps, k)
    {
      AllAccounted(dev.cluster, dev.backing, trace, steps, k);
    }
  }

  lemma InOrderOk(cluster: nat, p: Places)
    requires InOrder(cluster, p)
    ensures p.Ok({})
  {
  }

  lemma DeviceInOrder(dev: BlockDevice)
    requires dev.Valid()
    ensures InOrder(dev.cluster, dev.P())
  {
    hide AllCompatible, AllBounceOk, Shows, Places.Ok;
    NoWaitCycle(dev.P());
  }

  predicate IsInRounded(cluster: nat, r: Request, s: nat)
    ensures IsInRounded(cluster, r, s) <==> InRounded(cluster, r, s)
  {
    RoundStart(cluster, r) <= s < RoundStart(cluster, r) + RoundCount(cluster, r)
  }

  predicate AllRead(cluster: nat, r: Request, buffer: map<nat, SectorData>)
    ensures AllRead(cluster, r, buffer) <==> forall t: nat | InRounded(cluster, r, t) :: t in buffer
  {
    var lo, n := RoundStart(cluster, r), RoundCount(cluster, r);
    forall t: nat | lo <= t < lo + n :: t in buffer
  }

  lemma ShowsAll(image: map<nat, SectorData>, backing: nat -> SectorData, log: seq<Store>)
    requires Shows(image, backing, log)
    ensures forall s: nat :: Visible(image, backing, s) == Stored(backing, log, s)
  {
  }
}
