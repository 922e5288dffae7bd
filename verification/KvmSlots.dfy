/** The table of memory slots handed to the kernel, a second listener on the topology diff (kvm-all.c). */
module KvmSlots {
  import opened Prelude
  import opened Arithmetic
  import opened RegionGraph
  import opened FlatViews
  import opened TopologyDiff

  const SLOTS := 32

  /** A slot is free when its size is zero; its other fields then mean nothing. */
  datatype KvmSlot = KvmSlot(start: int, size: nat, ram: int) {
    function End(): int {
      start + size
    }

    predicate Live() {
      size != 0
    }

    predicate Covers(x: int) {
      start <= x < End()
    }

    predicate Meets(lo: int, hi: int) {
      Live() && hi > start && lo < End()
    }

    function HostAt(x: int): int {
      ram + (x - start)
    }
  }

  /** The host address behind a guest address. */
  ghost function Host(s: seq<KvmSlot>, x: int): Option<int> {
    if s == [] then None
    else if s[0].Covers(x) then Some(s[0].HostAt(x))
    else Host(s[1..], x)
  }

  ghost predicate TwoApart(a: KvmSlot, b: KvmSlot) {
    a.Live() && b.Live() ==> a.End() <= b.start || b.End() <= a.start
  }

  /** Live slots do not overlap. */
  ghost predicate Apart(s: seq<KvmSlot>) {
    forall i, j | 0 <= i < j < |s| :: TwoApart(s[i], s[j])
  }

  ghost function Used(s: seq<KvmSlot>): nat {
    if s == [] then 0 else (if s[0].Live() then 1 else 0) + Used(s[1..])
  }

  ghost function LiveSet(s: seq<KvmSlot>): set<KvmSlot> {
    set m | m in s && m.Live()
  }

  lemma {:induction false} HostCovered(s: seq<KvmSlot>, i: nat, x: int)
    requires Apart(s) && i < |s| && s[i].Covers(x)
    ensures Host(s, x) == Some(s[i].HostAt(x))
  {
    if i > 0 {
      assert TwoApart(s[0], s[i]);
      HostCovered(s[1..], i - 1, x);
    }
  }

  lemma {:induction false} HostUncovered(s: seq<KvmSlot>, x: int)
    requires forall i | 0 <= i < |s| :: !s[i].Covers(x)
    ensures Host(s, x) == None
  {
    if s != [] {
      HostUncovered(s[1..], x);
    }
  }

  lemma {:induction false} HostHit(s: seq<KvmSlot>, x: int) returns (i: nat)
    requires Host(s, x).Some?
    ensures i < |s| && s[i].Covers(x) && Host(s, x) == Some(s[i].HostAt(x))
  {
    if s[0].Covers(x) {
      i := 0;
    } else {
      var j := HostHit(s[1..], x);
      i := j + 1;
    }
  }

  lemma {:induction false} AllUsed(s: seq<KvmSlot>)
    requires forall i | 0 <= i < |s| :: s[i].Live()
    ensures Used(s) == |s|
  {
    if s != [] {
      AllUsed(s[1..]);
    }
  }

  lemma {:induction false} OneFree(s: seq<KvmSlot>, i: nat)
    requires i < |s| && !s[i].Live()
    ensures Used(s) < |s|
  {
    UsedAtMost(s[1..]);
    if i > 0 {
      OneFree(s[1..], i - 1);
    }
  }

  lemma {:induction false} UsedAtMost(s: seq<KvmSlot>)
    ensures Used(s) <= |s|
  {
    if s != [] {
      UsedAtMost(s[1..]);
    }
  }

  // Rounding a section to pages.

  function AlignDown(n: int, page: nat): int
    requires page > 0
  {
    n / page * page
  }

  /** The part of a section that becomes a slot.  The first byte is skipped by what the SIZE lacks to whole
      pages, and the section is ignored when that does not land on a page boundary. */
  function Effective(page: nat, start: int, size: nat): (r: Option<AddrRange>)
    requires page > 0
    ensures r.Some? ==> r.value.size > 0 && start <= r.value.start && r.value.End() <= start + size
  {
    var delta := AlignUp(size, page) - size;
    assert delta >= 0 by { DivBounds(size + page - 1, page); }
    if delta > size then None
    else
      var whole := AlignDown(size - delta, page);
      assert 0 <= whole <= size - delta by { DivBounds(size - delta, page); DivMonotone(0, size - delta, page); }
      if whole == 0 || (start + delta) % page != 0 then None
      else Some(AddrRange(start + delta, whole))
  }

  ghost predicate InSlot(page: nat, start: int, size: nat, x: int)
    requires page > 0
  {
    Effective(page, start, size).Some? && Effective(page, start, size).value.Contains(x)
  }

  /** The page of `x` lies wholly inside the section. */
  ghost predicate InWholePage(page: nat, start: int, size: nat, x: int)
    requires page > 0
  {
    start <= AlignDown(x, page) && AlignDown(x, page) + page <= start + size
  }

  lemma SkipAligns(page: nat, start: int, size: nat)
    requires page > 0
    ensures (start + (AlignUp(size, page) - size)) % page == 0 <==> start % page == size % page
    ensures 0 <= AlignUp(size, page) - size < page
  {
    DivBounds(size + page - 1, page);
    var k := (size + page - 1) / page;
    DivBounds(start, page);
    DivBounds(size, page);
    var r := start % page - size % page;
    var q := k + start / page - size / page;
    assert start + (k * page - size) == q * page + r by {
      assert q * page == k * page + start / page * page - size / page * page;
    }
    if r >= 0 {
      DivIs(q * page + r, page, q);
    } else {
      assert (q - 1) * page == q * page - page;
      DivIs(q * page + r, page, q - 1);
    }
  }

  lemma PageOrder(page: nat, q: int, k: int)
    requires page > 0
    ensures q <= k <==> q * page <= k * page
    ensures q < k <==> q * page + page <= k * page
  {
    if q < k {
      MulLess(q, k, page);
    } else if k < q {
      MulLess(k, q, page);
    }
  }

  lemma AlignedInSlot(page: nat, start: int, size: nat, x: int)
    requires page > 0 && start % page == size % page
    ensures InSlot(page, start, size, x) <==> InWholePage(page, start, size, x)
  {
    SkipAligns(page, start, size);
    var delta := AlignUp(size, page) - size;
    var q, k, m := (start + delta) / page, x / page, (size - delta) / page;
    DivBounds(start + delta, page);
    DivBounds(x, page);
    DivBounds(size - delta, page);
    assert (q - 1) * page == q * page - page;
    assert (q + m) * page == q * page + m * page;
    assert (q + m + 1) * page == (q + m) * page + page;
    PageOrder(page, q - 1, k);
    PageOrder(page, q, k);
    PageOrder(page, k, q + m);
    PageOrder(page, k, q + m + 1);
    PageOrder(page, 0, m);
  }

  /** The slot holds exactly the whole pages of the section if, and only if, start and size are off a page
      boundary by the same amount or there is no whole page to hold. */
  lemma SlotIsWholePages(page: nat, start: int, size: nat)
    requires page > 0
    ensures (forall x :: InSlot(page, start, size, x) <==> InWholePage(page, start, size, x)) <==>
            (start % page == size % page || AlignUp(start, page) + page > start + size)
  {
    SkipAligns(page, start, size);
    if start % page == size % page {
      forall x
        ensures InSlot(page, start, size, x) <==> InWholePage(page, start, size, x)
      {
        AlignedInSlot(page, start, size, x);
      }
    } else {
      var first := AlignUp(start, page);
      var q := (start + page - 1) / page;
      DivBounds(start + page - 1, page);
      DivIs(first, page, q);
      assert InWholePage(page, start, size, first) <==> first + page <= start + size;
      forall x
        ensures !InSlot(page, start, size, x)
        ensures InWholePage(page, start, size, x) ==> first + page <= start + size
      {
        assert (q - 1) * page == q * page - page;
        PageOrder(page, q - 1, x / page);
        PageOrder(page, q, x / page);
      }
    }
  }

  /** A section that begins on a page boundary but ends inside a page gets no slot, although its first page is whole. */
  lemma WholePageWithoutSlot()
    ensures InWholePage(4096, 4096, 6144, 4096) && !InSlot(4096, 4096, 6144, 4096)
  {
  }

  /** The table after [range] has been given to `host` (or to nobody). */
  ghost predicate Redirected(s0: seq<KvmSlot>, s: seq<KvmSlot>, range: Option<AddrRange>, start: int,
                             host: Option<int>) {
    forall x :: Host(s, x) ==
      if range.Some? && range.value.Contains(x) then (if host.Some? then Some(host.value + (x - start)) else None)
      else Host(s0, x)
  }

  /** Some slot already holds all of [lo, hi) at the right place. */
  ghost predicate Held(s: seq<KvmSlot>, lo: int, hi: int, ram: int) {
    exists i :: 0 <= i < |s| && Holds(s[i], lo, hi, ram)
  }

  ghost predicate Holds(m: KvmSlot, lo: int, hi: int, ram: int) {
    m.Live() && m.start <= lo && hi <= m.End() && ram - lo == m.ram - m.start
  }

  lemma ClearSlot(s: seq<KvmSlot>, f: nat, v: KvmSlot)
    requires Apart(s) && f < |s| && !v.Live()
    ensures Apart(s[f := v])
    ensures forall x :: Host(s[f := v], x) == if s[f].Covers(x) then None else Host(s, x)
  {
    var t := s[f := v];
    forall x
      ensures Host(t, x) == if s[f].Covers(x) then None else Host(s, x)
    {
      if s[f].Covers(x) {
        forall j | 0 <= j < |t|
          ensures !t[j].Covers(x)
        {
          assert j < f ==> TwoApart(s[j], s[f]);
          assert f < j ==> TwoApart(s[f], s[j]);
        }
        HostUncovered(t, x);
      } else if Host(s, x).Some? {
        var j := HostHit(s, x);
        assert t[j] == s[j];
        HostCovered(t, j, x);
      } else if Host(t, x).Some? {
        var j := HostHit(t, x);
        assert t[j] == s[j];
        HostCovered(s, j, x);
      }
    }
  }

  lemma PutSlot(s: seq<KvmSlot>, p: nat, v: KvmSlot)
    requires Apart(s) && p < |s| && !s[p].Live() && forall j | 0 <= j < |s| :: TwoApart(s[j], v)
    ensures Apart(s[p := v])
    ensures forall x :: Host(s[p := v], x) == if v.Covers(x) then Some(v.HostAt(x)) else Host(s, x)
  {
    var t := s[p := v];
    assert Apart(t);
    forall x
      ensures Host(t, x) == if v.Covers(x) then Some(v.HostAt(x)) else Host(s, x)
    {
      if v.Covers(x) {
        HostCovered(t, p, x);
      } else if Host(s, x).Some? {
        var j := HostHit(s, x);
        assert t[j] == s[j];
        HostCovered(t, j, x);
      } else if Host(t, x).Some? {
        var j := HostHit(t, x);
        assert t[j] == s[j];
        HostCovered(s, j, x);
      }
    }
  }

  lemma {:induction false} LiveCount(s: seq<KvmSlot>)
    requires Apart(s)
    ensures |LiveSet(s)| == Used(s)
  {
    if s != [] {
      var head, rest := s[0], s[1..];
      assert s == [head] + rest;
      LiveCount(rest);
      if head.Live() {
        forall i | 0 <= i < |rest|
          ensures rest[i] != head || !head.Live()
        {
          assert TwoApart(s[0], s[i + 1]);
        }
        assert LiveSet(s) == LiveSet(rest) + {head};
      } else {
        assert LiveSet(s) == LiveSet(rest);
      }
    }
  }

  lemma LiveAfterClear(s: seq<KvmSlot>, f: nat, v: KvmSlot)
    requires Apart(s) && f < |s| && s[f].Live() && !v.Live()
    ensures LiveSet(s[f := v]) == LiveSet(s) - {s[f]}
  {
    var t := s[f := v];
    forall i | 0 <= i < |s| && i != f
      ensures t[i] == s[i] && s[i] != s[f]
    {
      assert TwoApart(s[i], s[f]) || TwoApart(s[f], s[i]);
    }
    forall m | m in LiveSet(s) - {s[f]}
      ensures m in t
    {
      var i :| 0 <= i < |s| && s[i] == m;
      assert t[i] == m;
    }
  }

  lemma LiveAfterPut(s: seq<KvmSlot>, p: nat, v: KvmSlot)
    requires p < |s| && !s[p].Live() && v.Live()
    ensures LiveSet(s[p := v]) == LiveSet(s) + {v}
  {
    var t := s[p := v];
    assert t[p] == v;
    forall m | m in LiveSet(s)
      ensures m in t
    {
      var i :| 0 <= i < |s| && s[i] == m;
      assert t[i] == m;
    }
  }

  function Prefix(o: KvmSlot, lo: int): KvmSlot
    requires o.start < lo
  {
    KvmSlot(o.start, lo - o.start, o.ram)
  }

  function Suffix(o: KvmSlot, hi: int): KvmSlot
    requires o.start <= hi < o.End()
  {
    KvmSlot(hi, o.size - (hi - o.start), o.ram + (hi - o.start))
  }

  ghost function Below(o: KvmSlot, lo: int): set<KvmSlot> {
    if o.start < lo then {Prefix(o, lo)} else {}
  }

  /** What is left of a live slot once [lo, hi) is cut out of it. */
  ghost function Parts(o: KvmSlot, lo: int, hi: int): set<KvmSlot>
    requires lo < hi
  {
    if !o.Meets(lo, hi) then {o}
    else Below(o, lo) + (if o.End() > hi then {Suffix(o, hi)} else {})
  }

  ghost function Outside(live: set<KvmSlot>, lo: int, hi: int): set<KvmSlot>
    requires lo < hi
  {
    set o, p | o in live && p in Parts(o, lo, hi) :: p
  }

  lemma OutsideSplit(a: set<KvmSlot>, b: set<KvmSlot>, lo: int, hi: int)
    requires lo < hi
    ensures Outside(a + b, lo, hi) == Outside(a, lo, hi) + Outside(b, lo, hi)
  {
    hide Parts;
  }

  lemma OutsideOne(o: KvmSlot, lo: int, hi: int)
    requires lo < hi
    ensures Outside({o}, lo, hi) == Parts(o, lo, hi)
  {
    hide Parts;
    assert o in {o};
  }

  lemma OutsideUntouched(live: set<KvmSlot>, lo: int, hi: int)
    requires lo < hi && forall m | m in live :: !m.Meets(lo, hi)
    ensures Outside(live, lo, hi) == live
  {
    forall m | m in live
      ensures m in Outside(live, lo, hi)
    {
      assert m in Parts(m, lo, hi);
    }
  }

  lemma {:induction false} NothingSplit(live: set<KvmSlot>, lo: int, hi: int)
    requires lo < hi && forall m | m in live :: |Parts(m, lo, hi)| <= 1
    ensures |Outside(live, lo, hi)| <= |live|
  {
    if live != {} {
      var m :| m in live;
      var rest := live - {m};
      assert live == rest + {m};
      NothingSplit(rest, lo, hi);
      OutsideSplit(rest, {m}, lo, hi);
      OutsideOne(m, lo, hi);
      SumBound(Outside(rest, lo, hi), Parts(m, lo, hi));
    }
  }

  lemma SumBound(a: set<KvmSlot>, b: set<KvmSlot>)
    ensures |a + b| <= |a| + |b|
  {
    assert a + b == a + (b - a);
  }

  /** Cutting a range out of the table takes at most one slot more than the table already uses. */
  lemma OneSplitAtMost(s: seq<KvmSlot>, lo: int, hi: int)
    requires Apart(s) && lo < hi
    ensures |Outside(LiveSet(s), lo, hi)| <= Used(s) + 1
  {
    LiveCount(s);
    var live := LiveSet(s);
    if f :| 0 <= f < |s| && s[f].Meets(lo, hi) && s[f].start < lo && s[f].End() > hi {
      var o := s[f];
      OutsideLone(s, f, lo, hi);
      SumBound(live - {o}, Parts(o, lo, hi));
      assert |live - {o}| == |live| - 1;
      assert |Parts(o, lo, hi)| <= 2;
    } else {
      NothingSplit(live, lo, hi);
    }
  }

  /** While [lo, hi) is being cut out of `s0`, what lies outside it does not change. */
  ghost predicate Carving(s0: seq<KvmSlot>, s: seq<KvmSlot>, lo: int, hi: int)
    requires lo < hi
  {
    && |s| == |s0| && Apart(s)
    && Outside(LiveSet(s), lo, hi) == Outside(LiveSet(s0), lo, hi)
    && (forall i | 0 <= i < |s| && s[i].Meets(lo, hi) :: s[i] == s0[i])
    && forall x | !(lo <= x < hi) :: Host(s, x) == Host(s0, x)
  }

  ghost function Hits(s: seq<KvmSlot>, lo: int, hi: int): set<nat> {
    set i: nat | i < |s| && s[i].Meets(lo, hi)
  }

  ghost predicate IsCut(s: seq<KvmSlot>, t: seq<KvmSlot>, f: nat, lo: int, hi: int)
    requires f < |s| && lo < hi
  {
    && |t| == |s| && Apart(t) && Hits(t, lo, hi) < Hits(s, lo, hi)
    && LiveSet(t) == LiveSet(s) - {s[f]} + Parts(s[f], lo, hi)
    && (forall i | 0 <= i < |s| && t[i].Meets(lo, hi) :: t[i] == s[i])
    && forall x :: Host(t, x) == if s[f].Covers(x) && lo <= x < hi then None else Host(s, x)
  }

  /** `t` has lost slot `f` of `s` and gained the slots in `kept`, the parts of it below `lo` or from `hi` on. */
  ghost predicate CutSoFar(s: seq<KvmSlot>, t: seq<KvmSlot>, f: nat, lo: int, hi: int, kept: set<KvmSlot>,
                           below: bool, above: bool)
    requires f < |s|
  {
    && |t| == |s| && Apart(t) && Hits(t, lo, hi) == Hits(s, lo, hi) - {f}
    && LiveSet(t) == LiveSet(s) - {s[f]} + kept
    && (forall i | 0 <= i < |s| && t[i].Meets(lo, hi) :: t[i] == s[i])
    && (forall i | 0 <= i < |t| :: ClearOf(t[i], s[f], lo, hi, below, above))
    && forall x :: Host(t, x) ==
         if s[f].Covers(x) && !(below && x < lo) && !(above && x >= hi) then None else Host(s, x)
  }

  /** `m` shares nothing with `o`, except what `o` has below `lo` or above `hi` where that is allowed. */
  ghost predicate ClearOf(m: KvmSlot, o: KvmSlot, lo: int, hi: int, below: bool, above: bool) {
    || TwoApart(m, o)
    || (below && m.End() <= lo && m.End() <= o.End())
    || (above && hi <= m.start && o.start <= m.start)
  }

  lemma CutStart(s: seq<KvmSlot>, f: nat, lo: int, hi: int, v: KvmSlot)
    requires Apart(s) && f < |s| && s[f].Meets(lo, hi) && !v.Live()
    ensures CutSoFar(s, s[f := v], f, lo, hi, {}, false, false)
  {
    ClearSlot(s, f, v);
    LiveAfterClear(s, f, v);
    var t := s[f := v];
    forall i | 0 <= i < |t|
      ensures TwoApart(t[i], s[f])
    {
      assert i < f ==> TwoApart(s[i], s[f]);
      assert f < i ==> TwoApart(s[f], s[i]);
    }
  }

  lemma CutPrefix(s: seq<KvmSlot>, t: seq<KvmSlot>, f: nat, lo: int, hi: int, p: nat)
    requires Apart(s) && f < |s| && s[f].Meets(lo, hi) && lo < hi && s[f].start < lo
    requires CutSoFar(s, t, f, lo, hi, {}, false, false) && p < |t| && !t[p].Live()
    ensures CutSoFar(s, t[p := Prefix(s[f], lo)], f, lo, hi, {Prefix(s[f], lo)}, true, false)
  {
    hide Host, LiveSet;
    var v := Prefix(s[f], lo);
    var u := t[p := v];
    forall j | 0 <= j < |t|
      ensures TwoApart(t[j], v)
    {
      assert ClearOf(t[j], s[f], lo, hi, false, false);
    }
    PutSlot(t, p, v);
    LiveAfterPut(t, p, v);
    assert Hits(u, lo, hi) == Hits(t, lo, hi);
    forall x
      ensures Host(u, x) == if s[f].Covers(x) && x >= lo then None else Host(s, x)
    {
      if s[f].Covers(x) {
        HostCovered(s, f, x);
      }
    }
    forall i | 0 <= i < |u|
      ensures ClearOf(u[i], s[f], lo, hi, true, false)
    {
      assert ClearOf(t[i], s[f], lo, hi, false, false);
    }
  }

  lemma CutSuffix(s: seq<KvmSlot>, t: seq<KvmSlot>, f: nat, lo: int, hi: int, p: nat)
    requires Apart(s) && f < |s| && s[f].Meets(lo, hi) && lo < hi && s[f].End() > hi
    requires CutSoFar(s, t, f, lo, hi, Below(s[f], lo), s[f].start < lo, false)
    requires p < |t| && !t[p].Live()
    ensures CutSoFar(s, t[p := Suffix(s[f], hi)], f, lo, hi, Parts(s[f], lo, hi), s[f].start < lo, true)
  {
    hide Host, LiveSet;
    var v := Suffix(s[f], hi);
    var u := t[p := v];
    var b := s[f].start < lo;
    forall j | 0 <= j < |t|
      ensures TwoApart(t[j], v)
    {
      assert ClearOf(t[j], s[f], lo, hi, b, false);
    }
    PutSlot(t, p, v);
    LiveAfterPut(t, p, v);
    assert Hits(u, lo, hi) == Hits(t, lo, hi);
    forall x
      ensures Host(u, x) == if s[f].Covers(x) && !(b && x < lo) && x < hi then None else Host(s, x)
    {
      if s[f].Covers(x) {
        HostCovered(s, f, x);
      }
    }
    forall i | 0 <= i < |u|
      ensures ClearOf(u[i], s[f], lo, hi, b, true)
    {
      assert ClearOf(t[i], s[f], lo, hi, b, false);
    }
  }

  /** A slot that reaches beyond both ends is the only one in the way. */
  lemma LoneHit(s: seq<KvmSlot>, f: nat, lo: int, hi: int)
    requires Apart(s) && f < |s| && lo < hi && s[f].start <= lo && hi <= s[f].End()
    ensures Hits(s, lo, hi) == {f}
  {
    forall i: nat | i < |s| && i != f
      ensures !s[i].Meets(lo, hi)
    {
      assert i < f ==> TwoApart(s[i], s[f]);
      assert f < i ==> TwoApart(s[f], s[i]);
    }
  }

  lemma OutsideLone(s: seq<KvmSlot>, f: nat, lo: int, hi: int)
    requires Apart(s) && f < |s| && lo < hi && s[f].Live() && s[f].start <= lo && hi <= s[f].End()
    ensures Outside(LiveSet(s), lo, hi) == LiveSet(s) - {s[f]} + Parts(s[f], lo, hi)
  {
    LoneHit(s, f, lo, hi);
    var o, rest := s[f], LiveSet(s) - {s[f]};
    assert LiveSet(s) == rest + {o};
    forall m | m in rest
      ensures !m.Meets(lo, hi)
    {
      var i: nat :| i < |s| && s[i] == m;
      assert i != f && i !in Hits(s, lo, hi);
    }
    OutsideUntouched(rest, lo, hi);
    OutsideOne(o, lo, hi);
    OutsideSplit(rest, {o}, lo, hi);
  }

  lemma CutApart(s: seq<KvmSlot>, t: seq<KvmSlot>, f: nat, lo: int, hi: int)
    requires f < |s| && lo < hi && s[f].start < lo && CutSoFar(s, t, f, lo, hi, {Prefix(s[f], lo)}, true, false)
    ensures Apart(t)
  {
  }

  /** Both parts are wanted and only one slot is free: no table of this size could hold the result. */
  lemma CutTooBig(s: seq<KvmSlot>, t: seq<KvmSlot>, f: nat, lo: int, hi: int)
    requires Apart(s) && f < |s| && s[f].Meets(lo, hi) && lo < hi && s[f].start < lo && s[f].End() > hi
    requires CutSoFar(s, t, f, lo, hi, {Prefix(s[f], lo)}, true, false) && Used(t) >= |t|
    ensures |Outside(LiveSet(s), lo, hi)| > |s|
  {
    hide Host, Outside, Apart, Hits, Used;
    OutsideLone(s, f, lo, hi);
    CutApart(s, t, f, lo, hi);
    LiveCount(t);
    var v, rest := Suffix(s[f], hi), LiveSet(s) - {s[f]};
    assert v !in LiveSet(t) by {
      if i :| 0 <= i < |t| && t[i] == v {
        assert ClearOf(t[i], s[f], lo, hi, true, false);
      }
    }
    assert rest + Parts(s[f], lo, hi) == LiveSet(t) + {v};
  }

  lemma NoRoom(s: seq<KvmSlot>, t: seq<KvmSlot>, f: nat, lo: int, hi: int)
    requires Apart(s) && f < |s| && s[f].Meets(lo, hi) && lo < hi && s[f].End() > hi
    requires if s[f].start < lo then CutSoFar(s, t, f, lo, hi, {Prefix(s[f], lo)}, true, false)
             else t == s[f := s[f].(size := 0)]
    requires Used(t) >= |t|
    ensures |Outside(LiveSet(s), lo, hi)| > |s|
  {
    if s[f].start < lo {
      CutTooBig(s, t, f, lo, hi);
    } else {
      OneFree(t, f);
      assert false;
    }
  }

  lemma CutDone(s: seq<KvmSlot>, t: seq<KvmSlot>, f: nat, lo: int, hi: int)
    requires f < |s| && s[f].Meets(lo, hi) && lo < hi
    requires CutSoFar(s, t, f, lo, hi, Parts(s[f], lo, hi), s[f].start < lo, s[f].End() > hi)
    ensures IsCut(s, t, f, lo, hi)
  {
    assert f in Hits(s, lo, hi);
  }

  lemma CarveOne(s0: seq<KvmSlot>, s: seq<KvmSlot>, t: seq<KvmSlot>, f: nat, lo: int, hi: int)
    requires lo < hi && Carving(s0, s, lo, hi) && f < |s| && s[f].Meets(lo, hi) && IsCut(s, t, f, lo, hi)
    ensures Carving(s0, t, lo, hi)
  {
    hide Host, Outside;
    var o, rest := s[f], LiveSet(s) - {s[f]};
    var parts := Parts(o, lo, hi);
    OutsideSplit(rest, {o}, lo, hi);
    OutsideOne(o, lo, hi);
    OutsideSplit(rest, parts, lo, hi);
    OutsideUntouched(parts, lo, hi);
    assert LiveSet(s) == rest + {o};
  }

  /** A slot that already holds the whole range is the first one found, so nothing has been cut yet. */
  lemma HolderIsFound(s0: seq<KvmSlot>, s: seq<KvmSlot>, f: nat, lo: int, hi: int, ram: int)
    requires lo < hi && Carving(s0, s, lo, hi) && f < |s| && s[f].Meets(lo, hi)
    requires Held(s0, lo, hi, ram) ==> s == s0
    ensures Held(s0, lo, hi, ram) ==> Holds(s[f], lo, hi, ram)
  {
    if Held(s0, lo, hi, ram) {
      var i :| 0 <= i < |s| && Holds(s[i], lo, hi, ram);
      LoneHit(s, i, lo, hi);
      assert f in Hits(s, lo, hi);
    }
  }

  lemma CarvingStart(s: seq<KvmSlot>, lo: int, hi: int)
    requires lo < hi && Apart(s)
    ensures Carving(s, s, lo, hi)
  {
  }

  lemma CarvingFacts(s0: seq<KvmSlot>, s: seq<KvmSlot>, lo: int, hi: int)
    requires lo < hi && Carving(s0, s, lo, hi)
    ensures Apart(s) && Outside(LiveSet(s), lo, hi) == Outside(LiveSet(s0), lo, hi)
  {
  }

  lemma FewerHits(s: seq<KvmSlot>, t: seq<KvmSlot>, f: nat, lo: int, hi: int)
    requires f < |s| && lo < hi && IsCut(s, t, f, lo, hi)
    ensures Hits(t, lo, hi) < Hits(s, lo, hi)
  {
  }

  lemma NobodyHolds(s: seq<KvmSlot>, lo: int, hi: int, ram: int)
    requires lo < hi && forall i | 0 <= i < |s| :: !s[i].Meets(lo, hi)
    ensures !Held(s, lo, hi, ram)
  {
  }

  lemma RemovedFrom(s0: seq<KvmSlot>, s: seq<KvmSlot>, range: AddrRange, start: int)
    requires Redirected(s0, s, Some(range), range.start, None)
    ensures Redirected(s0, s, Some(range), start, None)
  {
    hide Host;
  }

  lemma Unchanged(s: seq<KvmSlot>, start: int, host: Option<int>)
    ensures Redirected(s, s, None, start, host)
  {
  }

  lemma HolderWasThere(s0: seq<KvmSlot>, s: seq<KvmSlot>, f: nat, lo: int, hi: int, ram: int)
    requires lo < hi && Carving(s0, s, lo, hi) && f < |s| && s[f].Meets(lo, hi) && Holds(s[f], lo, hi, ram)
    ensures Held(s0, lo, hi, ram)
  {
    assert Holds(s0[f], lo, hi, ram);
  }

  lemma HolderServes(s0: seq<KvmSlot>, s: seq<KvmSlot>, f: nat, range: AddrRange, ram: int)
    requires range.size > 0 && Carving(s0, s, range.start, range.End()) && f < |s|
    requires Holds(s[f], range.start, range.End(), ram)
    ensures Redirected(s0, s, Some(range), range.start, Some(ram))
  {
    forall x | range.Contains(x)
      ensures Host(s, x) == Some(ram + (x - range.start))
    {
      HostCovered(s, f, x);
    }
  }

  lemma CarvedOut(s0: seq<KvmSlot>, s: seq<KvmSlot>, range: AddrRange)
    requires range.size > 0 && Carving(s0, s, range.start, range.End())
    requires forall i | 0 <= i < |s| :: !s[i].Meets(range.start, range.End())
    ensures Redirected(s0, s, Some(range), range.start, None)
    ensures LiveSet(s) == Outside(LiveSet(s0), range.start, range.End()) && Used(s) == |LiveSet(s)|
  {
    forall x | range.Contains(x)
      ensures Host(s, x) == None
    {
      HostUncovered(s, x);
    }
    OutsideUntouched(LiveSet(s), range.start, range.End());
    LiveCount(s);
  }

  lemma Refilled(s0: seq<KvmSlot>, s: seq<KvmSlot>, at: nat, range: AddrRange, ram: int)
    requires Apart(s) && range.size > 0 && Redirected(s0, s, Some(range), range.start, None)
    requires forall i | 0 <= i < |s| :: !s[i].Meets(range.start, range.End())
    requires at < |s| && !s[at].Live()
    ensures var v := KvmSlot(range.start, range.size, ram);
      var t := s[at := v];
      Apart(t) && LiveSet(t) == LiveSet(s) + {v} && Redirected(s0, t, Some(range), range.start, Some(ram))
  {
    hide Host;
    PutSlot(s, at, KvmSlot(range.start, range.size, ram));
    LiveAfterPut(s, at, KvmSlot(range.start, range.size, ram));
  }

  /** Counting the host address from the section's own start comes to the same. */
  lemma RedirectedFrom(s0: seq<KvmSlot>, s: seq<KvmSlot>, range: AddrRange, start: int, host: int)
    requires Redirected(s0, s, Some(range), range.start, Some(host + (range.start - start)))
    ensures Redirected(s0, s, Some(range), start, Some(host))
  {
    hide Host;
  }

  /** The range a section asks for; sections that are not RAM ask for none. */
  function Wanted(page: nat, start: int, size: nat, isRam: bool): Option<AddrRange>
    requires page > 0
  {
    if isRam then Effective(page, start, size) else None
  }

  /** The table is large enough for the change, unless a slot already holds the section. */
  ghost predicate Enough(s: seq<KvmSlot>, want: Option<AddrRange>, start: int, host: int, add: bool) {
    want.Some? && want.value.size > 0 ==>
      var lo, hi := want.value.start, want.value.End();
      || (add && Held(s, lo, hi, host + (lo - start)))
      || |Outside(LiveSet(s), lo, hi)| + (if add then 1 else 0) <= SLOTS
  }

  /** The live slots after the change, whatever their numbers. */
  ghost function After(s: seq<KvmSlot>, want: Option<AddrRange>, start: int, host: int, add: bool): set<KvmSlot> {
    if want.None? || want.value.size <= 0 then LiveSet(s)
    else
      var lo, hi, ram := want.value.start, want.value.End(), host + (want.value.start - start);
      if add && Held(s, lo, hi, ram) then LiveSet(s)
      else Outside(LiveSet(s), lo, hi) + (if add then {KvmSlot(lo, want.value.size, ram)} else {})
  }

  /** Two free slots are always enough. */
  lemma TwoFreeSuffice(s: seq<KvmSlot>, page: nat, start: int, size: nat, isRam: bool, host: int, add: bool)
    requires page > 0 && Apart(s) && Used(s) + 2 <= SLOTS
    ensures Enough(s, Wanted(page, start, size, isRam), start, host, add)
  {
    var want := Wanted(page, start, size, isRam);
    if want.Some? {
      OneSplitAtMost(s, want.value.start, want.value.End());
    }
  }

  // The table as a listener: it follows the differences between flat views.

  /** What a section asks of the table; `rams` has the host address of every RAM region. */
  function Wish(page: nat, rams: map<RegionId, int>, s: Section): (r: Option<AddrRange>)
    requires page > 0
    ensures r.Some? ==>
      s.mr in rams && r.value.size > 0 && s.addr.start <= r.value.start && r.value.End() <= s.addr.End()
  {
    Wanted(page, s.addr.start, Max(0, s.addr.size), s.mr in rams)
  }

  ghost function SlotOf(page: nat, rams: map<RegionId, int>, s: Section): KvmSlot
    requires page > 0 && Wish(page, rams, s).Some?
  {
    var w := Wish(page, rams, s).value;
    KvmSlot(w.start, w.size, rams[s.mr] + s.offset + (w.start - s.addr.start))
  }

  /** The slots of the sections a listener holds. */
  ghost function Table(page: nat, rams: map<RegionId, int>, l: Listener): set<KvmSlot>
    requires page > 0
  {
    set s | s in l && Wish(page, rams, s).Some? :: SlotOf(page, rams, s)
  }

  function HostOf(rams: map<RegionId, int>, r: FlatRange): int {
    (if r.mr in rams then rams[r.mr] else 0) + r.offset
  }

  /** The slots of other sections stay clear of a section disjoint from theirs. */
  lemma OthersClear(page: nat, rams: map<RegionId, int>, l: Listener, s: Section)
    requires page > 0 && s !in l && Disjoint(l[s := false]) && Wish(page, rams, s).Some?
    ensures var w := Wish(page, rams, s).value; forall m | m in Table(page, rams, l) :: !m.Meets(w.start, w.End())
  {
    hide Wish;
    var all := l[s := false];
    forall m | m in Table(page, rams, l)
      ensures !m.Meets(Wish(page, rams, s).value.start, Wish(page, rams, s).value.End())
    {
      var o :| o in l && Wish(page, rams, o).Some? && m == SlotOf(page, rams, o);
      assert o in all && s in all && o != s;
    }
  }

  /** Adding or removing a section adds or removes its slot, if it has one. */
  lemma TableStep(page: nat, rams: map<RegionId, int>, l: Listener, s: Section, logged: bool)
    requires page > 0 && s !in l
    ensures Table(page, rams, l[s := logged]) ==
      Table(page, rams, l) + if Wish(page, rams, s).Some? then {SlotOf(page, rams, s)} else {}
  {
    hide Wish, SlotOf;
    var both := l[s := logged];
    forall o | o in both && Wish(page, rams, o).Some?
      ensures o == s || SlotOf(page, rams, o) in Table(page, rams, l)
    {
    }
    forall o | o in l && Wish(page, rams, o).Some?
      ensures SlotOf(page, rams, o) in Table(page, rams, both)
    {
      assert o in both;
    }
    assert s in both;
  }

  lemma FollowAdd(page: nat, rams: map<RegionId, int>, t: seq<KvmSlot>, l: Listener, r: FlatRange)
    requires page > 0 && Apart(t) && |t| == SLOTS && LiveSet(t) == Table(page, rams, l)
    requires SectionOf(r) !in l && Disjoint(Notify(l, RegionAdd(r)))
    ensures var next := Table(page, rams, Notify(l, RegionAdd(r)));
      var want := Wish(page, rams, SectionOf(r));
      && (Enough(t, want, r.addr.start, HostOf(rams, r), true) <==> |next| <= SLOTS)
      && After(t, want, r.addr.start, HostOf(rams, r), true) == next
  {
    hide Wish, Table, LiveSet, Used, Outside, Held, Apart, Disjoint;
    var s := SectionOf(r);
    TableStep(page, rams, l, s, r.dirtyLogMask != 0);
    LiveCount(t);
    UsedAtMost(t);
    if Wish(page, rams, s).Some? {
      var w := Wish(page, rams, s).value;
      SameDisjoint(l, s, r.dirtyLogMask != 0);
      OthersClear(page, rams, l, s);
      NoHolder(t, w.start, w.End(), HostOf(rams, r) + (w.start - r.addr.start));
      OutsideUntouched(LiveSet(t), w.start, w.End());
      assert SlotOf(page, rams, s).Meets(w.start, w.End());
      assert SlotOf(page, rams, s) !in Table(page, rams, l);
    }
  }

  lemma SameDisjoint(l: Listener, s: Section, logged: bool)
    requires Disjoint(l[s := logged])
    ensures Disjoint(l[s := false])
  {
    var a, b := l[s := logged], l[s := false];
    forall o | o in b
      ensures o in a
    {
    }
  }

  lemma NoHolder(t: seq<KvmSlot>, lo: int, hi: int, ram: int)
    requires lo < hi && forall m | m in LiveSet(t) :: !m.Meets(lo, hi)
    ensures !Held(t, lo, hi, ram)
  {
    forall i | 0 <= i < |t|
      ensures !Holds(t[i], lo, hi, ram)
    {
      assert t[i].Live() ==> t[i] in LiveSet(t);
    }
  }

  lemma FollowDel(page: nat, rams: map<RegionId, int>, t: seq<KvmSlot>, l: Listener, r: FlatRange)
    requires page > 0 && Apart(t) && |t| == SLOTS && LiveSet(t) == Table(page, rams, l)
    requires SectionOf(r) in l && Disjoint(l)
    ensures var next := Table(page, rams, Notify(l, RegionDel(r)));
      var want := Wish(page, rams, SectionOf(r));
      && Enough(t, want, r.addr.start, HostOf(rams, r), false) && |next| <= SLOTS
      && After(t, want, r.addr.start, HostOf(rams, r), false) == next
  {
    hide Wish, Table, LiveSet, Used, Outside, Held, Apart, Disjoint;
    var s, rest := SectionOf(r), l - {SectionOf(r)};
    assert l == rest[s := l[s]];
    TableStep(page, rams, rest, s, l[s]);
    LiveCount(t);
    UsedAtMost(t);
    if Wish(page, rams, s).Some? {
      var w, o := Wish(page, rams, s).value, SlotOf(page, rams, s);
      SameDisjoint(rest, s, l[s]);
      OthersClear(page, rams, rest, s);
      OutsideUntouched(Table(page, rams, rest), w.start, w.End());
      OutsideOne(o, w.start, w.End());
      assert Parts(o, w.start, w.End()) == {};
      OutsideSplit(Table(page, rams, rest), {o}, w.start, w.End());
    }
    Smaller(Table(page, rams, rest), LiveSet(t));
  }

  lemma Smaller(a: set<KvmSlot>, b: set<KvmSlot>)
    requires a <= b
    ensures |a| <= |b|
  {
    assert b == a + (b - a);
  }

  /** Throughout a run of events the sections held never need more slots than there are. */
  ghost predicate AllFit(page: nat, rams: map<RegionId, int>, l: Listener, events: seq<Event>)
    requires page > 0
    decreases |events|
  {
    && |Table(page, rams, l)| <= SLOTS
    && (events != [] ==> AllFit(page, rams, Notify(l, events[0]), events[1..]))
  }

  lemma {:induction false} AllFitConcat(page: nat, rams: map<RegionId, int>, l: Listener, a: seq<Event>, b: seq<Event>)
    requires page > 0
    ensures AllFit(page, rams, l, a + b) <==> AllFit(page, rams, l, a) && AllFit(page, rams, NotifyAll(l, a), b)
    decreases |a|
  {
    hide Table, Notify;
    if a == [] {
      assert a + b == b;
    } else {
      assert (a + b)[0] == a[0] && (a + b)[1..] == a[1..] + b;
      AllFitConcat(page, rams, Notify(l, a[0]), a[1..], b);
    }
  }

  lemma TableGrows(page: nat, rams: map<RegionId, int>, a: Listener, b: Listener)
    requires page > 0 && a.Keys <= b.Keys
    ensures |Table(page, rams, a)| <= |Table(page, rams, b)|
  {
    hide Wish, SlotOf;
    Smaller(Table(page, rams, a), Table(page, rams, b));
  }

  lemma {:induction false} DeletionsFit(page: nat, rams: map<RegionId, int>, l: Listener, events: seq<Event>)
    requires page > 0 && |Table(page, rams, l)| <= SLOTS && forall e | e in events :: e.RegionDel?
    ensures AllFit(page, rams, l, events)
    decreases |events|
  {
    hide Table;
    if events != [] {
      assert events[0].RegionDel?;
      TableGrows(page, rams, Notify(l, events[0]), l);
      DeletionsFit(page, rams, Notify(l, events[0]), events[1..]);
    }
  }

  lemma {:induction false} AdditionsFit(page: nat, rams: map<RegionId, int>, l: Listener, events: seq<Event>)
    requires page > 0 && forall e | e in events :: !e.RegionDel?
    ensures AllFit(page, rams, l, events) <==> |Table(page, rams, NotifyAll(l, events))| <= SLOTS
    ensures l.Keys <= NotifyAll(l, events).Keys
    decreases |events|
  {
    hide Table;
    if events != [] {
      assert !events[0].RegionDel?;
      AdditionsFit(page, rams, Notify(l, events[0]), events[1..]);
      TableGrows(page, rams, l, NotifyAll(l, events));
    }
  }

  lemma {:induction false} PassesKeepApart(olds: seq<FlatRange>, news: seq<FlatRange>, v: seq<FlatRange>)
    ensures forall e | e in Deletions(v, news) :: e.RegionDel?
    ensures forall e | e in Additions(olds, v) :: !e.RegionDel?
  {
    if v != [] {
      PassesKeepApart(olds, news, v[1..]);
    }
  }

  /** Whatever the guest reaches through the table is RAM that the graph shows at that address. */
  lemma GuestSeesTheGraph(page: nat, rams: map<RegionId, int>, t: seq<KvmSlot>, g: Graph, root: Option<RegionId>,
                          v: seq<FlatRange>, x: int)
    requires page > 0 && Acyclic(g) && (root.Some? ==> root.value in g) && IsRendering(g, root, v)
    requires LiveSet(t) == Table(page, rams, Holding(v)) && Host(t, x).Some?
    ensures var o := Visible(g, root, x);
      o.Some? && o.value.mr in rams && Host(t, x) == Some(rams[o.value.mr] + o.value.offset)
  {
    hide Host, Visible, Acyclic, Wish, Holding;
    var j := HostHit(t, x);
    assert t[j] in LiveSet(t);
    var s :| s in Holding(v) && Wish(page, rams, s).Some? && t[j] == SlotOf(page, rams, s);
    var i := HoldingKey(v, s);
    LookupAt(v, i, x);
    assert Lookup(v, x) == Visible(g, root, x);
  }

  /** With RAM in whole pages the guest reaches all of it. */
  lemma GuestSeesAllRam(page: nat, rams: map<RegionId, int>, t: seq<KvmSlot>, g: Graph, root: Option<RegionId>,
                        v: seq<FlatRange>, x: int)
    requires page > 0 && Acyclic(g) && (root.Some? ==> root.value in g) && IsRendering(g, root, v)
    requires Apart(t) && LiveSet(t) == Table(page, rams, Holding(v))
    requires forall r | r in v && r.mr in rams :: r.addr.start % page == 0 && r.addr.size % page == 0
    ensures var o := Visible(g, root, x);
      Host(t, x) == if o.Some? && o.value.mr in rams then Some(rams[o.value.mr] + o.value.offset) else None
  {
    hide Host, Visible, Acyclic, Holding, Wish;
    var o := Visible(g, root, x);
    if Host(t, x).Some? {
      GuestSeesTheGraph(page, rams, t, g, root, v, x);
    } else if o.Some? && o.value.mr in rams {
      assert Lookup(v, x) == o;
      var i := LookupHit(v, x);
      HoldingAt(v, i);
      WholePagesGiven(page, rams, SectionOf(v[i]), x);
      var m := SlotOf(page, rams, SectionOf(v[i]));
      assert m in LiveSet(t);
      var j :| 0 <= j < |t| && t[j] == m;
      HostCovered(t, j, x);
    }
  }

  lemma WholePageAround(page: nat, start: int, size: nat, x: int)
    requires page > 0 && start % page == 0 && size % page == 0 && start <= x < start + size
    ensures InWholePage(page, start, size, x)
  {
    var k, q, m := x / page, start / page, size / page;
    DivBounds(x, page);
    DivBounds(start, page);
    DivBounds(size, page);
    assert (q + m) * page == q * page + m * page;
    assert (k + 1) * page == k * page + page;
    PageOrder(page, k + 1, q);
    PageOrder(page, k, q + m);
  }

  lemma WholePagesGiven(page: nat, rams: map<RegionId, int>, s: Section, x: int)
    requires page > 0 && s.mr in rams && s.addr.Contains(x) && s.addr.start % page == 0 && s.addr.size % page == 0
    ensures Wish(page, rams, s).Some? && Wish(page, rams, s).value.Contains(x)
  {
    hide Effective, InWholePage;
    WholePageAround(page, s.addr.start, s.addr.size, x);
    AlignedInSlot(page, s.addr.start, s.addr.size, x);
  }

  lemma TableSize(t: seq<KvmSlot>)
    requires Apart(t)
    ensures |LiveSet(t)| <= |t|
  {
    LiveCount(t);
    UsedAtMost(t);
  }

  lemma NextFits(page: nat, rams: map<RegionId, int>, l: Listener, e: Event, rest: seq<Event>)
    requires page > 0 && |Table(page, rams, l)| <= SLOTS
    ensures AllFit(page, rams, l, [e] + rest) <==> AllFit(page, rams, Notify(l, e), rest)
    ensures AllFit(page, rams, Notify(l, e), rest) ==> |Table(page, rams, Notify(l, e))| <= SLOTS
  {
    hide Table, Notify;
    assert ([e] + rest)[0] == e && ([e] + rest)[1..] == rest;
  }

  lemma SameSections(page: nat, rams: map<RegionId, int>, l: Listener, e: Event)
    requires page > 0 && Sensible(l, e) && !e.RegionAdd? && !e.RegionDel?
    ensures Table(page, rams, Notify(l, e)) == Table(page, rams, l)
  {
    hide Wish, SlotOf;
    assert forall s :: s in Notify(l, e) <==> s in l;
  }

  lemma CommitFits(page: nat, rams: map<RegionId, int>, olds: seq<FlatRange>, news: seq<FlatRange>)
    requires page > 0 && Sorted(olds) && Sorted(news) && |Table(page, rams, Holding(olds))| <= SLOTS
    ensures var events := Deletions(olds, news) + Additions(olds, news);
      && GoodRun(Holding(olds), events) && NotifyAll(Holding(olds), events) == Holding(news)
      && (AllFit(page, rams, Holding(olds), events) <==> |Table(page, rams, Holding(news))| <= SLOTS)
  {
    hide Table, GoodRun, NotifyAll, Holding, Sorted, AllFit, Deletions, Additions;
    var l, dels, adds := Holding(olds), Deletions(olds, news), Additions(olds, news);
    DiffIsExact(olds, news);
    PassesKeepApart(olds, news, olds);
    PassesKeepApart(olds, news, news);
    DeletionsFit(page, rams, l, dels);
    AllFitConcat(page, rams, l, dels, adds);
    AdditionsFit(page, rams, NotifyAll(l, dels), adds);
    NotifyConcat(l, dels, adds);
  }

  lemma {:induction false} NotifyConcat(l: Listener, a: seq<Event>, b: seq<Event>)
    ensures NotifyAll(l, a + b) == NotifyAll(NotifyAll(l, a), b)
    decreases |a|
  {
    if a == [] {
      assert a + b == b;
    } else {
      assert (a + b)[0] == a[0] && (a + b)[1..] == a[1..] + b;
      NotifyConcat(Notify(l, a[0]), a[1..], b);
    }
  }

  class KvmState {
    const slots: array<KvmSlot>
    const page: nat

    constructor (page: nat)
      requires page > 0
      ensures Valid() && fresh(slots) && this.page == page
      ensures LiveSet(slots[..]) == {} && forall x :: Host(slots[..], x) == None
    {
      slots := new KvmSlot[SLOTS](_ => KvmSlot(0, 0, 0));
      this.page := page;
      new;
      forall x
        ensures Host(slots[..], x) == None
      {
        HostUncovered(slots[..], x);
      }
    }

    ghost predicate Valid()
      reads slots
    {
      slots.Length == SLOTS && page > 0 && Apart(slots[..])
    }

    method AllocSlot() returns (found: Option<nat>)
      requires slots.Length == SLOTS
      ensures found.Some? ==>
        found.value < SLOTS && !slots[found.value].Live() && forall j | 0 <= j < found.value :: slots[j].Live()
      ensures found.Some? <==> Used(slots[..]) < SLOTS
    {
      var i := 0;
      while i < slots.Length
        invariant i <= SLOTS && forall j | 0 <= j < i :: slots[j].Live()
      {
        if slots[i].size == 0 {
          OneFree(slots[..], i);
          return Some(i);
        }
        i := i + 1;
      }
      AllUsed(slots[..]);
      return None;
    }

    /** The slot with the lowest start among those that overlap [lo, hi). */
    method LookupOverlappingSlot(lo: int, hi: int) returns (found: Option<nat>)
      requires slots.Length == SLOTS
      ensures found.None? ==> forall j | 0 <= j < SLOTS :: !slots[j].Meets(lo, hi)
      ensures found.Some? ==>
        && found.value < SLOTS && slots[found.value].Meets(lo, hi)
        && forall j | 0 <= j < SLOTS && slots[j].Meets(lo, hi) :: slots[found.value].start <= slots[j].start
    {
      found := None;
      var i := 0;
      while i < slots.Length
        invariant i <= SLOTS
        invariant found.None? ==> forall j | 0 <= j < i :: !slots[j].Meets(lo, hi)
        invariant found.Some? ==>
          && found.value < i && slots[found.value].Meets(lo, hi)
          && forall j | 0 <= j < i && slots[j].Meets(lo, hi) :: slots[found.value].start <= slots[j].start
      {
        var mem := slots[i];
        if !(mem.size == 0 || (found.Some? && slots[found.value].start < mem.start)) {
          if hi > mem.start && lo < mem.start + mem.size {
            found := Some(i);
          }
        }
        i := i + 1;
      }
    }

    /** Fill a free slot; without one the emulator aborts. */
    method RegisterSlot(v: KvmSlot) returns (ok: bool, ghost at: nat)
      requires slots.Length == SLOTS
      modifies slots
      ensures ok <==> Used(old(slots[..])) < SLOTS
      ensures ok ==> at < SLOTS && !old(slots[at]).Live() && slots[..] == old(slots[..])[at := v]
      ensures !ok ==> slots[..] == old(slots[..])
    {
      var free := AllocSlot();
      at := 0;
      match free {
        case None => ok := false;
        case Some(i) => slots[i], ok, at := v, true, i;
      }
    }

    /** One round of the loop: unregister slot `f`, and register again what it had outside [lo, hi). */
    method CutSlot(f: nat, lo: int, hi: int) returns (ok: bool)
      requires Valid() && f < SLOTS && slots[f].Meets(lo, hi) && lo < hi
      modifies slots
      ensures ok ==> IsCut(old(slots[..]), slots[..], f, lo, hi)
      ensures !ok ==> |Outside(LiveSet(old(slots[..])), lo, hi)| > SLOTS
    {
      hide Host, LiveSet, Outside, Used, CutSoFar, Apart;
      ghost var s := slots[..];
      var o := slots[f];
      ghost var at: nat;
      slots[f] := o.(size := 0);
      CutStart(s, f, lo, hi, o.(size := 0));
      ok := true;
      if o.start < lo {
        ghost var t := slots[..];
        assert t == s[f := o.(size := 0)];
        OneFree(t, f);
        ok, at := RegisterSlot(Prefix(o, lo));
        CutPrefix(s, t, f, lo, hi, at);
      }
      assert o.End() <= hi ==> Parts(o, lo, hi) == Below(o, lo);
      if o.start + o.size > hi {
        ghost var t := slots[..];
        ok, at := RegisterSlot(Suffix(o, hi));
        if ok {
          CutSuffix(s, t, f, lo, hi, at);
        } else {
          NoRoom(s, t, f, lo, hi);
        }
      }
      if ok {
        CutDone(s, slots[..], f, lo, hi);
      }
    }

    /** Cut [lo, hi) out of every slot, lowest first, unless a slot is found that already `held` it all. */
    method CutAll(lo: int, hi: int, add: bool, ram: int) returns (ok: bool, held: bool, ghost f: nat)
      requires Valid() && lo < hi
      modifies slots
      ensures held <==> add && Held(old(slots[..]), lo, hi, ram)
      ensures held ==> ok && slots[..] == old(slots[..]) && f < SLOTS && Holds(slots[f], lo, hi, ram)
      ensures ok ==> Carving(old(slots[..]), slots[..], lo, hi)
      ensures ok && !held ==> forall j | 0 <= j < SLOTS :: !slots[j].Meets(lo, hi)
      ensures !ok ==> |Outside(LiveSet(old(slots[..])), lo, hi)| > SLOTS
    {
      hide Host, LiveSet, Outside, Used, Apart, Carving, Held, IsCut;
      ghost var s0 := slots[..];
      CarvingStart(s0, lo, hi);
      ok, held, f := true, false, 0;
      while true
        invariant ok && !held && Carving(s0, slots[..], lo, hi)
        invariant add && Held(s0, lo, hi, ram) ==> slots[..] == s0
        decreases Hits(slots[..], lo, hi)
      {
        ghost var s := slots[..];
        CarvingFacts(s0, s, lo, hi);
        var found := LookupOverlappingSlot(lo, hi);
        if found.None? {
          NobodyHolds(s, lo, hi, ram);
          return;
        }
        var mem := slots[found.value];
        if add && lo >= mem.start && hi <= mem.start + mem.size && ram - lo == mem.ram - mem.start {
          HolderWasThere(s0, s, found.value, lo, hi, ram);
          held, f := true, found.value;
          return;
        }
        if add {
          HolderIsFound(s0, s, found.value, lo, hi, ram);
        }
        ok := CutSlot(found.value, lo, hi);
        if !ok {
          return;
        }
        CarveOne(s0, s, slots[..], found.value, lo, hi);
        FewerHits(s, slots[..], found.value, lo, hi);
      }
    }

    /** Point the guest addresses of a section at host memory from `host` on, or at nothing.  The result says
        whether a slot was found each time one was needed. */
    method SetPhysMem(start: int, size: nat, isRam: bool, host: int, add: bool) returns (ok: bool)
      requires Valid()
      modifies slots
      ensures ok <==> Enough(old(slots[..]), Wanted(page, start, size, isRam), start, host, add)
      ensures ok ==> Valid() && Redirected(old(slots[..]), slots[..], Wanted(page, start, size, isRam), start,
                                           if add then Some(host) else None)
      ensures ok ==> LiveSet(slots[..]) == After(old(slots[..]), Wanted(page, start, size, isRam), start, host, add)
    {
      hide Host, LiveSet, Outside, Used, Apart, Carving, Held, Redirected;
      ghost var s0 := slots[..];
      var range := Effective(page, start, size);
      if range.None? || !isRam {
        Unchanged(s0, start, if add then Some(host) else None);
        return true;
      }
      var lo, hi := range.value.start, range.value.End();
      var ram := host + (lo - start);
      var held;
      ghost var f: nat;
      ok, held, f := CutAll(lo, hi, add, ram);
      ghost var s := slots[..];
      if held {
        CarvingFacts(s0, s, lo, hi);
        HolderServes(s0, s, f, range.value, ram);
        RedirectedFrom(s0, s, range.value, start, host);
      } else if ok {
        CarvingFacts(s0, s, lo, hi);
        CarvedOut(s0, s, range.value);
        if add {
          ghost var at: nat;
          ok, at := RegisterSlot(KvmSlot(lo, range.value.size, ram));
          if ok {
            Refilled(s0, s, at, range.value, ram);
            RedirectedFrom(s0, slots[..], range.value, start, host);
          }
        } else {
          UsedAtMost(s);
          RemovedFrom(s0, s, range.value, start);
        }
      }
    }

    /** kvm_region_add and kvm_region_del, over a whole run of events. */
    method Follow(rams: map<RegionId, int>, events: seq<Event>, ghost l: Listener) returns (ok: bool)
      requires Valid() && LiveSet(slots[..]) == Table(page, rams, l) && GoodRun(l, events)
      modifies slots
      ensures ok <==> AllFit(page, rams, l, events)
      ensures ok ==> Valid() && LiveSet(slots[..]) == Table(page, rams, NotifyAll(l, events))
    {
      hide Host, LiveSet, Table, Redirected, Enough, After, Wanted, Apart, Used;
      ghost var now := l;
      var i := 0;
      while i < |events|
        invariant i <= |events| && Valid() && LiveSet(slots[..]) == Table(page, rams, now)
        invariant GoodRun(now, events[i..]) && NotifyAll(now, events[i..]) == NotifyAll(l, events)
        invariant AllFit(page, rams, l, events) <==> AllFit(page, rams, now, events[i..])
      {
        var e := events[i];
        assert events[i..][0] == e && events[i..][1..] == events[i + 1..];
        TableSize(slots[..]);
        NextFits(page, rams, now, e, events[i + 1..]);
        if e.RegionAdd? || e.RegionDel? {
          if e.RegionAdd? {
            FollowAdd(page, rams, slots[..], now, e.range);
          } else {
            FollowDel(page, rams, slots[..], now, e.range);
          }
          var start, size := e.range.addr.start, Max(0, e.range.addr.size);
          ok := SetPhysMem(start, size, e.range.mr in rams, HostOf(rams, e.range), e.RegionAdd?);
          if !ok {
            return;
          }
        } else {
          SameSections(page, rams, now, e);
        }
        now := Notify(now, e);
        i := i + 1;
      }
      TableSize(slots[..]);
      ok := true;
    }

    /** One commit: from the RAM of the old view to the RAM of the new one.  It fails exactly when the new view
        has more sections to map than there are slots. */
    method FollowCommit(rams: map<RegionId, int>, olds: seq<FlatRange>, news: seq<FlatRange>) returns (ok: bool)
      requires Valid() && Sorted(olds) && Sorted(news) && LiveSet(slots[..]) == Table(page, rams, Holding(olds))
      modifies slots
      ensures ok <==> |Table(page, rams, Holding(news))| <= SLOTS
      ensures ok ==> Valid() && LiveSet(slots[..]) == Table(page, rams, Holding(news))
    {
      hide LiveSet, Table, Apart, GoodRun, NotifyAll, Holding, Sorted, AllFit, Deletions, Additions;
      var deleted := UpdateTopologyPass(olds, news, false);
      var added := UpdateTopologyPass(olds, news, true);
      TableSize(slots[..]);
      CommitFits(page, rams, olds, news);
      ok := Follow(rams, deleted + added, Holding(olds));
    }
  }
}
